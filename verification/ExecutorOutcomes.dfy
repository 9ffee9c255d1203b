/** From what the nodes answered to what `ExecuteGraph` (internal/engine/executor.go) returns: which
    answers fail a run, which output an answer leads to, and what cancellation keeps from running. */
module ExecutorOutcomes {
  import opened Common
  import opened WorkflowGraph
  import opened Executor
  import opened ExecutorInvariant
  import opened ExecutorOrder
  import opened ExecutorTheorems

  // ---------------------------------------------------------------------------
  // One node's answers

  /** The k-th error edge carries a retry policy, and the retries under it ended in something other
      than "error". */
  ghost predicate EndsErrors(g: CompiledGraph, u: NodeId, tries: seq<Attempt>, k: nat) {
    var targets := Targets(g, u, "error");
    && k < |targets| && k < |tries|
    && (u, "error", targets[k]) in g.retries && g.retries[(u, "error", targets[k])] != None
    && tries[k] != Output("error")
  }

  ghost predicate FirstDecisive(g: CompiledGraph, u: NodeId, tries: seq<Attempt>, k: nat) {
    EndsErrors(g, u, tries, k) && forall j: nat :: j < k ==> !EndsErrors(g, u, tries, j)
  }

  ghost predicate NoneDecisive(g: CompiledGraph, u: NodeId, tries: seq<Attempt>) {
    forall k: nat :: !EndsErrors(g, u, tries, k)
  }

  /** Answers that fail the run: a structural error at first or in the decisive retry, or an error
      that no edge takes. */
  ghost predicate Fails(g: CompiledGraph, u: NodeId, first: Attempt, tries: seq<Attempt>) {
    || first.Structural?
    || (first == Output("error") && Targets(g, u, "error") == [])
    || (first == Output("error") && exists k: nat :: FirstDecisive(g, u, tries, k) && tries[k].Structural?)
  }

  /** Answers that lead to output `o`: the first answer itself, or after an error the decisive
      retry's answer, or the error edges if there is no decisive retry. */
  ghost predicate LeadsTo(g: CompiledGraph, u: NodeId, first: Attempt, tries: seq<Attempt>, o: string) {
    && first.Output?
    && if first.name != "error" then o == first.name
       else
         && Targets(g, u, "error") != []
         && ((o == "error" && NoneDecisive(g, u, tries))
             || exists k: nat :: FirstDecisive(g, u, tries, k) && tries[k] == Output(o))
  }

  lemma {:induction false} SomeFirstDecisive(g: CompiledGraph, u: NodeId, tries: seq<Attempt>, n: nat) returns (k: nat)
    requires EndsErrors(g, u, tries, n)
    ensures FirstDecisive(g, u, tries, k)
    decreases n
  {
    if j: nat :| j < n && EndsErrors(g, u, tries, j) {
      k := SomeFirstDecisive(g, u, tries, j);
    } else {
      k := n;
    }
  }

  lemma FirstDecisiveUnique(g: CompiledGraph, u: NodeId, tries: seq<Attempt>, j: nat, k: nat)
    requires FirstDecisive(g, u, tries, j) && FirstDecisive(g, u, tries, k)
    ensures j == k
  {
    assert !(j < k) && !(k < j);
  }

  lemma ErrorSettles(g: CompiledGraph, u: NodeId, tries: seq<Attempt>)
    requires |tries| == |Targets(g, u, "error")| && Targets(g, u, "error") != []
    ensures Settled(g, u, Output("error"), tries).Fail? <==> Fails(g, u, Output("error"), tries)
    ensures forall o :: Settled(g, u, Output("error"), tries) == Follow(o) <==> LeadsTo(g, u, Output("error"), tries, o)
  {
    var targets := Targets(g, u, "error");
    FirstDecisiveRetryDecides(g, u, targets, tries);
    forall k: nat ensures Decisive(g, u, targets, tries, k) == EndsErrors(g, u, tries, k) {}
    if n: nat :| EndsErrors(g, u, tries, n) {
      var k := SomeFirstDecisive(g, u, tries, n);
      forall j: nat | FirstDecisive(g, u, tries, j) ensures j == k { FirstDecisiveUnique(g, u, tries, j, k); }
    }
  }

  lemma SettledMeans(g: CompiledGraph, u: NodeId, first: Attempt, tries: seq<Attempt>)
    requires |tries| == |Targets(g, u, "error")|
    ensures Settled(g, u, first, tries).Fail? <==> Fails(g, u, first, tries)
    ensures forall o :: Settled(g, u, first, tries) == Follow(o) <==> LeadsTo(g, u, first, tries, o)
  {
    if first == Output("error") && Targets(g, u, "error") != [] { ErrorSettles(g, u, tries); }
  }

  // ---------------------------------------------------------------------------
  // What later steps keep

  /** Goroutines keep their node and their fired output, and a recorded error stays. */
  ghost predicate Lasts(s: State, s': State) {
    && |s.threads| <= |s'.threads|
    && (forall k :: 0 <= k < |s.threads| ==> s'.threads[k].node == s.threads[k].node)
    && (forall k :: 0 <= k < |s.threads| && Fired(s.threads[k].pc).Some? ==>
          Fired(s'.threads[k].pc) == Fired(s.threads[k].pc))
    && (forall k :: 0 <= k < |s.threads| && s.threads[k].pc.Aborted? ==> s'.threads[k].pc.Aborted?)
    && (s.firstErr.Some? ==> s'.firstErr == s.firstErr)
  }

  lemma MoveLasts(s: State, s': State, t: nat)
    requires t < |s.threads| <= |s'.threads| && s'.threads[t].node == s.threads[t].node
    requires Fired(s.threads[t].pc).Some? ==> Fired(s'.threads[t].pc) == Fired(s.threads[t].pc)
    requires !s.threads[t].pc.Aborted?
    requires forall k :: 0 <= k < |s.threads| && k != t ==> s'.threads[k] == s.threads[k]
    requires s.firstErr.Some? ==> s'.firstErr == s.firstErr
    ensures Lasts(s, s')
  {
  }

  lemma SharedLasts(w: Setup, s: State, e: Event)
    requires Enabled(w, s, e) && (e.Evict? || e.Swap? || e.Arrive?)
    ensures Lasts(s, Apply(w, s, e))
  {
    if e.Evict? {
      EvictMoves(w, s, e.t);
      MoveLasts(s, DoEvict(w, s, e.t), e.t);
    } else if e.Swap? {
      SwapMoves(w, s, e.t);
      MoveLasts(s, DoSwap(w, s, e.t), e.t);
    } else {
      ArriveMoves(w, s, e.t);
      MoveLasts(s, DoArrive(w, s, e.t), e.t);
    }
  }

  lemma StepLasts(w: Setup, s: State, e: Event)
    requires Enabled(w, s, e)
    ensures Lasts(s, Apply(w, s, e))
  {
    if e.Evict? || e.Swap? || e.Arrive? { SharedLasts(w, s, e); }
    else if e.Check? || e.Settle? || e.Abort? {
      var pc := LocalStep(w, s, e);
      MoveLasts(s, Apply(w, s, e), e.t);
    }
  }

  lemma {:induction false} PrefixPossible(w: Setup, es: seq<Event>, i: nat)
    requires Possible(w, es) && i <= |es|
    ensures Possible(w, es[..i])
    ensures i < |es| ==>
      && Enabled(w, After(w, es[..i]), es[i])
      && Possible(w, es[..i+1]) && After(w, es[..i+1]) == Apply(w, After(w, es[..i]), es[i])
    decreases |es| - i
  {
    if i == |es| {
      assert es[..i] == es;
    } else {
      PrefixPossible(w, es, i + 1);
      assert es[..i+1][..i] == es[..i];
    }
  }

  lemma LastsTransitive(s: State, s': State, s'': State)
    requires Lasts(s, s') && Lasts(s', s'')
    ensures Lasts(s, s'')
  {
  }

  lemma NextLasts(w: Setup, es: seq<Event>, n: nat)
    requires Possible(w, es) && n < |es|
    ensures Possible(w, es[..n]) && Possible(w, es[..n+1]) && Lasts(After(w, es[..n]), After(w, es[..n+1]))
  {
    PrefixPossible(w, es, n);
    StepLasts(w, After(w, es[..n]), es[n]);
  }

  lemma {:induction false} RunLasts(w: Setup, es: seq<Event>, i: nat, n: nat, s: State)
    requires Possible(w, es) && i <= n <= |es| && Possible(w, es[..i]) && s == After(w, es[..i])
    ensures Possible(w, es[..n]) && Lasts(s, After(w, es[..n]))
    decreases n - i
  {
    if i < n {
      NextLasts(w, es, i);
      var s' := After(w, es[..i+1]);
      RunLasts(w, es, i + 1, n, s');
      LastsTransitive(s, s', After(w, es[..n]));
    }
  }

  // ---------------------------------------------------------------------------
  // Answers and the verdict

  /** The `i`-th event is an answer of node `u`. */
  ghost predicate AnswersAt(w: Setup, es: seq<Event>, i: nat, u: NodeId) {
    && i < |es| && es[i].Settle? && Possible(w, es[..i])
    && es[i].t < |After(w, es[..i]).threads| && After(w, es[..i]).threads[es[i].t].node == u
  }

  ghost predicate FailsAt(w: Setup, es: seq<Event>, i: nat, u: NodeId) {
    AnswersAt(w, es, i, u) && Fails(w.g, u, es[i].first, es[i].tries)
  }

  /** An answer that does not fail makes its goroutine follow the output it leads to, for good. */
  lemma AnswerIsFollowed(w: Setup, es: seq<Event>, i: nat, u: NodeId, o: string)
    requires Possible(w, es) && AnswersAt(w, es, i, u) && LeadsTo(w.g, u, es[i].first, es[i].tries, o)
    ensures var s := After(w, es);
      es[i].t < |s.threads| && s.threads[es[i].t].node == u && Fired(s.threads[es[i].t].pc) == Some(o)
  {
    PrefixPossible(w, es, i);
    SettledMeans(w.g, u, es[i].first, es[i].tries);
    RunLasts(w, es, i + 1, |es|, After(w, es[..i+1]));
    assert es[..|es|] == es;
  }

  /** The recorded error is that of the first failing answer, and there is none without one. */
  ghost predicate FirstFailure(w: Setup, es: seq<Event>, n: NodeId) {
    exists i: nat :: FailsAt(w, es, i, n) && forall j: nat, u :: j < i ==> !FailsAt(w, es, j, u)
  }

  ghost predicate ErrorMatches(w: Setup, es: seq<Event>)
    requires Possible(w, es)
  {
    match After(w, es).firstErr
    case None => NoFailure(w, es)
    case Some(n) => FirstFailure(w, es, n)
  }

  ghost predicate NoFailure(w: Setup, es: seq<Event>) {
    forall i: nat, u :: !FailsAt(w, es, i, u)
  }

  lemma FailsEarlier(w: Setup, es: seq<Event>, before: seq<Event>, i: nat, u: NodeId)
    requires before <= es && i < |before|
    ensures FailsAt(w, es, i, u) <==> FailsAt(w, before, i, u)
  {
    assert before[..i] == es[..i];
  }

  lemma StillFirst(w: Setup, es: seq<Event>, before: seq<Event>, m: NodeId)
    requires before <= es && FirstFailure(w, before, m)
    ensures FirstFailure(w, es, m)
  {
    var i: nat :| FailsAt(w, before, i, m) && forall j: nat, u :: j < i ==> !FailsAt(w, before, j, u);
    FailsEarlier(w, es, before, i, m);
    forall j: nat, u | j < i ensures !FailsAt(w, es, j, u) { FailsEarlier(w, es, before, j, u); }
  }

  lemma NewFirst(w: Setup, es: seq<Event>, n: nat, m: NodeId)
    requires |es| == n + 1 && NoFailure(w, es[..n]) && FailsAt(w, es, n, m)
    ensures FirstFailure(w, es, m)
  {
    forall j: nat, u | j < n ensures !FailsAt(w, es, j, u) { FailsEarlier(w, es, es[..n], j, u); }
  }

  lemma StillNone(w: Setup, es: seq<Event>, n: nat)
    requires |es| == n + 1 && NoFailure(w, es[..n]) && forall u :: !FailsAt(w, es, n, u)
    ensures NoFailure(w, es)
  {
    forall i: nat, u ensures !FailsAt(w, es, i, u) {
      if i < n { FailsEarlier(w, es, es[..n], i, u); }
    }
  }

  /** Whether the last event is a failing answer is what decides how the recorded error changes. */
  lemma LastAnswer(w: Setup, es: seq<Event>, n: nat)
    requires |es| == n + 1 && Possible(w, es)
    ensures var s, s' := After(w, es[..|es|-1]), After(w, es);
      && (s'.firstErr == s.firstErr || (s.firstErr.None? && s'.firstErr.Some? && FailsAt(w, es, n, s'.firstErr.value)))
      && (forall u :: FailsAt(w, es, n, u) ==> s'.firstErr.Some?)
  {
    var s, e := After(w, es[..|es|-1]), es[|es|-1];
    if e.Settle? { SettledMeans(w.g, s.threads[e.t].node, e.first, e.tries); }
  }

  lemma {:induction false} ErrorIsFirstFailure(w: Setup, es: seq<Event>)
    requires Possible(w, es)
    ensures ErrorMatches(w, es)
    decreases |es|
  {
    if es != [] {
      var n := |es| - 1;
      ErrorIsFirstFailure(w, es[..n]);
      LastAnswer(w, es, n);
      var before, now := After(w, es[..n]).firstErr, After(w, es).firstErr;
      if before.Some? { StillFirst(w, es, es[..n], before.value); }
      else if now.Some? { NewFirst(w, es, n, now.value); }
      else { StillNone(w, es, n); }
    }
  }

  lemma {:induction false} NoEntriesNoGoroutines(w: Setup, es: seq<Event>)
    requires Possible(w, es) && w.g.entryNodes == []
    ensures After(w, es).threads == []
    decreases |es|
  {
    if es != [] {
      NoEntriesNoGoroutines(w, es[..|es|-1]);
      OnlyCancel(w, After(w, es[..|es|-1]), es[|es|-1]);
    }
  }

  lemma OnlyCancel(w: Setup, s: State, e: Event)
    requires w.g.entryNodes == [] && s.threads == [] && Enabled(w, s, e)
    ensures e == Cancel && Apply(w, s, e).threads == []
  {
  }

  lemma StepCancels(w: Setup, s: State, e: Event)
    requires Enabled(w, s, e) && FailuresRecorded(s)
    ensures Apply(w, s, e).cancelled <==> s.cancelled || e == Cancel || e.Abort?
    ensures e.Abort? ==> s.firstErr.Some?
    ensures s.firstErr.Some? ==> Apply(w, s, e).firstErr.Some?
  {
    if e.Abort? { assert Accounted(s, s.threads[e.t]); }
    StepLasts(w, s, e);
  }

  /** The context is cancelled by a failing node or from outside, and for no other reason. */
  lemma {:induction false} CancelledIff(w: Setup, es: seq<Event>, s: State)
    requires Possible(w, es) && s == After(w, es)
    ensures Cancel in es ==> s.cancelled
    ensures s.cancelled ==> Cancel in es || s.firstErr.Some?
    decreases |es|
  {
    if es != [] {
      var before, e := es[..|es|-1], es[|es|-1];
      var s0 := After(w, before);
      CancelledIff(w, before, s0);
      RunRecords(w, before);
      StepCancels(w, s0, e);
      assert Cancel in es <==> Cancel in before || e == Cancel by { assert es == before + [e]; }
    }
  }

  /** The verdict in terms of what the nodes answered: a node error if and only if some answer
      failed, and it names the node of the first that did; truncated if and only if no answer failed
      and the context was cancelled from outside. */
  lemma VerdictMeans(w: Setup, es: seq<Event>, r: Verdict)
    requires Possible(w, es) && IsVerdict(w, After(w, es), r)
    ensures r.NodeError? <==> exists i: nat, u :: FailsAt(w, es, i, u)
    ensures r.NodeError? ==> FirstFailure(w, es, r.node)
    ensures w.g.entryNodes != [] ==>
      (r.Truncated? <==> Cancel in es && NoFailure(w, es))
  {
    ErrorIsFirstFailure(w, es);
    CancelledIff(w, es, After(w, es));
    if w.g.entryNodes == [] {
      forall i: nat, u ensures !FailsAt(w, es, i, u) {
        if AnswersAt(w, es, i, u) { NoEntriesNoGoroutines(w, es[..i]); }
      }
    }
  }

  /** If the verdict is success, no answer was a structural error or an error without error edges,
      and every answering goroutine followed the output its answers lead to. */
  lemma SuccessMeansNoFailure(w: Setup, es: seq<Event>, i: nat) returns (u: NodeId, o: string)
    requires Possible(w, es) && IsVerdict(w, After(w, es), Success) && i < |es| && es[i].Settle?
    ensures es[i].first != Structural
    ensures AnswersAt(w, es, i, u) && LeadsTo(w.g, u, es[i].first, es[i].tries, o)
    ensures var s := After(w, es);
      es[i].t < |s.threads| && s.threads[es[i].t].node == u && Fired(s.threads[es[i].t].pc) == Some(o)
  {
    ErrorIsFirstFailure(w, es);
    PrefixPossible(w, es, i);
    u := After(w, es[..i]).threads[es[i].t].node;
    assert !FailsAt(w, es, i, u);
    SettledMeans(w.g, u, es[i].first, es[i].tries);
    o := Settled(w.g, u, es[i].first, es[i].tries).output;
    AnswerIsFollowed(w, es, i, u, o);
  }

  // ---------------------------------------------------------------------------
  // Cancellation

  /** A goroutine that looks at the context after cancellation never runs its node; one that looks
      before does not stop for it. */
  lemma CancelledNeverRuns(w: Setup, es: seq<Event>, i: nat, j: nat)
    requires Possible(w, es) && i < |es| && es[i].Check? && Possible(w, es[..i])
    ensures var s := After(w, es);
      es[i].t < |s.threads| && (After(w, es[..i]).cancelled ==> s.threads[es[i].t].pc.Aborted?)
    ensures After(w, es[..i]).cancelled && i < j < |es| && es[j].Settle? ==> es[j].t != es[i].t
    ensures Possible(w, es[..i+1]) && es[i].t < |After(w, es[..i+1]).threads|
    ensures !After(w, es[..i]).cancelled ==> After(w, es[..i+1]).threads[es[i].t].pc.Running?
  {
    PrefixPossible(w, es, i);
    RunLasts(w, es, i + 1, |es|, After(w, es[..i+1]));
    assert es[..|es|] == es;
    if i < j < |es| {
      RunLasts(w, es, i + 1, j, After(w, es[..i+1]));
      PrefixPossible(w, es, j);
    }
  }
}
