/** Exactly when a stored output is evicted (internal/engine/eviction.go): once all its readers have
    completed, unless they had all completed before it was stored. */
module EvictionOutcomes {
  import opened Common
  import opened WorkflowGraph
  import opened Executor
  import opened ExecutorOrder
  import opened ExecutorTheorems
  import opened ExecutorOutcomes
  import opened Eviction
  import opened EvictionRuns

  // ---------------------------------------------------------------------------
  // Counts and readers

  lemma {:induction false} AtLeastOnePerNode(f: Thread -> bool, threads: seq<Thread>, nodes: set<NodeId>)
    requires forall c :: c in nodes ==> exists k :: 0 <= k < |threads| && threads[k].node == c && f(threads[k])
    ensures Tally(f, threads) >= |nodes|
    decreases |threads|
  {
    if threads != [] {
      var n := |threads| - 1;
      var rest := if f(threads[n]) then nodes - {threads[n].node} else nodes;
      forall c | c in rest ensures exists k :: 0 <= k < n && threads[..n][k].node == c && f(threads[..n][k]) {
        var k :| 0 <= k < |threads| && threads[k].node == c && f(threads[k]);
        assert k < n && threads[..n][k] == threads[k];
      }
      AtLeastOnePerNode(f, threads[..n], rest);
    } else {
      assert nodes == {};
    }
  }

  /** Every node that may read the output of `p` has completed and released it. */
  ghost predicate AllReleased(w: Setup, s: State, p: NodeId) {
    forall c :: c in Readers(w.g, p) ==> HasReleased(w, s, c, OutputKey(w.g, p))
  }

  /** The count of a tracked output has run out exactly when all its readers have released it. */
  lemma ExhaustedIff(w: Setup, s: State, p: NodeId)
    requires Tracks(w) && DistinctKeys(w.g) && Counts(w, s) && OneEach(s) && Tracked(w.g, p)
    ensures OutputKey(w.g, p) in s.refs && (s.refs[OutputKey(w.g, p)] <= 0 <==> AllReleased(w, s, p))
  {
    var key := OutputKey(w.g, p);
    assert key in w.refs && w.refs[key] == |Readers(w.g, p)|;
    if s.refs[key] <= 0 {
      forall c | c in Readers(w.g, p) ensures HasReleased(w, s, c, key) { ExhaustedMeansAllReleased(w, s, p, c); }
    }
    if AllReleased(w, s, p) {
      forall c | c in Readers(w.g, p)
        ensures exists k :: 0 <= k < |s.threads| && s.threads[k].node == c && Released(w, key)(s.threads[k])
      {
        assert HasReleased(w, s, c, key);
      }
      AtLeastOnePerNode(Released(w, key), s.threads, Readers(w.g, p));
    }
  }

  // ---------------------------------------------------------------------------
  // One step

  /** Once stored, the output of goroutine `k` is there exactly while it is retained, uncounted, or its
      count lasts, or if it was stored late. */
  ghost predicate Present(w: Setup, s: State, k: nat, late: bool) {
    k < |s.threads| && Fired(s.threads[k].pc).Some? ==>
      var key := OutputKey(w.g, s.threads[k].node);
      key in s.outputs <==> w.retain || key !in s.refs || s.refs[key] > 0 || late
  }

  /** Goroutine `k` stores its output when its count has already run out. */
  ghost predicate StoresLate(w: Setup, s: State, e: Event, k: nat) {
    && e.Settle? && e.t == k && k < |s.threads|
    && OutputKey(w.g, s.threads[k].node) in s.refs && s.refs[OutputKey(w.g, s.threads[k].node)] <= 0
  }

  lemma EvictPresent(w: Setup, s: State, t: nat, k: nat, late: bool)
    requires t < |s.threads| && s.threads[t].pc.Evicting? && Present(w, s, k, late)
    requires late && k < |s.threads| && Fired(s.threads[k].pc).Some? ==>
      OutputKey(w.g, s.threads[k].node) in s.refs ==> s.refs[OutputKey(w.g, s.threads[k].node)] <= 0
    ensures Present(w, DoEvict(w, s, t), k, late)
  {
  }

  lemma MovePresent(w: Setup, s: State, s': State, t: nat, k: nat, late: bool)
    requires Present(w, s, k, late) && t < |s.threads| && LaunchesOne(s, s') && s'.refs == s.refs && s'.outputs == s.outputs
    requires forall j :: 0 <= j < |s.threads| && j != t ==> s'.threads[j] == s.threads[j]
    requires s'.threads[t].node == s.threads[t].node
    requires Fired(s'.threads[t].pc).Some? ==> Fired(s.threads[t].pc).Some?
    ensures Present(w, s', k, late)
  {
  }

  lemma SettlePresent(w: Setup, s: State, t: nat, outcome: Outcome, k: nat, late: bool)
    requires t < |s.threads| && s.threads[t].pc.Running? && Present(w, s, k, late) && DistinctKeys(w.g) && OneEach(s)
    requires forall j :: 0 <= j < |s.threads| ==> s.threads[j].node in w.g.nodes
    ensures k != t ==> Present(w, DoSettle(w, s, t, outcome), k, late)
    ensures k == t && OutputKey(w.g, s.threads[k].node) in s.refs ==>
      Present(w, DoSettle(w, s, t, outcome), k, late || s.refs[OutputKey(w.g, s.threads[k].node)] <= 0)
    ensures k == t && OutputKey(w.g, s.threads[k].node) !in s.refs ==> Present(w, DoSettle(w, s, t, outcome), k, late)
  {
    if k < |s.threads| && k != t {
      assert s.threads[k].node != s.threads[t].node;
      assert OutputKey(w.g, s.threads[k].node) != OutputKey(w.g, s.threads[t].node);
    }
  }

  lemma SharedPresent(w: Setup, s: State, e: Event, k: nat, late: bool)
    requires Enabled(w, s, e) && (e.Swap? || e.Arrive?) && Present(w, s, k, late)
    ensures Present(w, Apply(w, s, e), k, late)
  {
    if e.Swap? { SwapMoves(w, s, e.t); } else { ArriveMoves(w, s, e.t); }
    MovePresent(w, s, Apply(w, s, e), e.t, k, late);
  }

  lemma OtherPresent(w: Setup, s: State, e: Event, k: nat, late: bool)
    requires Enabled(w, s, e) && (e.Launch? || e.Cancel? || e.Check? || e.Abort?) && Present(w, s, k, late)
    ensures Present(w, Apply(w, s, e), k, late)
  {
  }

  /** A late output's count has run out, and stays so. */
  ghost predicate LateIsExhausted(w: Setup, s: State, k: nat, late: bool) {
    late ==>
      && k < |s.threads| && OutputKey(w.g, s.threads[k].node) in s.refs
      && s.refs[OutputKey(w.g, s.threads[k].node)] <= 0
  }

  ghost predicate Fall(refs: map<string, int>, refs': map<string, int>) {
    refs'.Keys == refs.Keys && forall key :: key in refs ==> refs'[key] <= refs[key]
  }

  lemma EvictFalls(w: Setup, s: State, t: nat)
    requires t < |s.threads| && s.threads[t].pc.Evicting?
    ensures Fall(s.refs, DoEvict(w, s, t).refs)
  {
  }

  lemma SharedFalls(w: Setup, s: State, e: Event)
    requires Enabled(w, s, e) && (e.Swap? || e.Arrive?)
    ensures Fall(s.refs, Apply(w, s, e).refs)
  {
    if e.Swap? { SwapMoves(w, s, e.t); } else { ArriveMoves(w, s, e.t); }
  }

  lemma RefsOnlyFall(w: Setup, s: State, e: Event)
    requires Enabled(w, s, e)
    ensures Fall(s.refs, Apply(w, s, e).refs)
  {
    if e.Evict? { EvictFalls(w, s, e.t); }
    else if e.Swap? || e.Arrive? { SharedFalls(w, s, e); }
  }

  lemma StepLate(w: Setup, s: State, e: Event, k: nat, late: bool)
    requires Enabled(w, s, e) && LateIsExhausted(w, s, k, late)
    ensures LateIsExhausted(w, Apply(w, s, e), k, late || StoresLate(w, s, e, k))
  {
    RefsOnlyFall(w, s, e);
    StepLasts(w, s, e);
  }

  lemma StepPresent(w: Setup, s: State, e: Event, k: nat, late: bool)
    requires Enabled(w, s, e) && Present(w, s, k, late) && LateIsExhausted(w, s, k, late) && DistinctKeys(w.g) && OneEach(s)
    requires forall j :: 0 <= j < |s.threads| ==> s.threads[j].node in w.g.nodes
    ensures Present(w, Apply(w, s, e), k, late || StoresLate(w, s, e, k))
  {
    if e.Evict? { EvictPresent(w, s, e.t, k, late); }
    else if e.Settle? { SettlePresent(w, s, e.t, Settled(w.g, s.threads[e.t].node, e.first, e.tries), k, late); }
    else if e.Swap? || e.Arrive? { SharedPresent(w, s, e, k, late); }
    else { OtherPresent(w, s, e, k, late); }
  }

  // ---------------------------------------------------------------------------
  // All runs

  /** With the i-th event goroutine `k` stores an output that all readers have already released. */
  ghost predicate StoredLateAt(w: Setup, es: seq<Event>, i: nat, k: nat) {
    i < |es| && Possible(w, es[..i]) && StoresLate(w, After(w, es[..i]), es[i], k)
  }

  ghost predicate StoredLate(w: Setup, es: seq<Event>, k: nat) {
    exists i: nat :: StoredLateAt(w, es, i, k)
  }

  lemma LateEarlier(w: Setup, es: seq<Event>, before: seq<Event>, i: nat, k: nat)
    requires before <= es && i < |before|
    ensures StoredLateAt(w, es, i, k) <==> StoredLateAt(w, before, i, k)
  {
    assert before[..i] == es[..i];
  }

  lemma LateByLast(w: Setup, es: seq<Event>, n: nat, k: nat, last: bool)
    requires |es| == n + 1 && last == StoredLateAt(w, es, n, k)
    ensures StoredLate(w, es, k) <==> StoredLate(w, es[..n], k) || last
  {
    if i: nat :| StoredLateAt(w, es, i, k) {
      if i < n { LateEarlier(w, es, es[..n], i, k); }
    }
    if i: nat :| StoredLateAt(w, es[..n], i, k) { LateEarlier(w, es, es[..n], i, k); }
  }

  lemma {:induction false} RunPresent(w: Setup, es: seq<Event>, k: nat)
    requires Runnable(w.g) && DistinctKeys(w.g) && Possible(w, es)
    ensures Present(w, After(w, es), k, StoredLate(w, es, k))
    ensures LateIsExhausted(w, After(w, es), k, StoredLate(w, es, k))
    decreases |es|
  {
    if es != [] {
      var n := |es| - 1;
      var s, e, late := After(w, es[..n]), es[n], StoredLate(w, es[..n], k);
      RunPresent(w, es[..n], k);
      RunOneEach(w, es[..n]);
      LateByLast(w, es, n, k, StoresLate(w, s, e, k));
      StepPresent(w, s, e, k, late);
      StepLate(w, s, e, k, late);
    }
  }

  lemma CountedIff(w: Setup, p: NodeId)
    requires Tracks(w) && DistinctKeys(w.g) && p in w.g.nodes
    ensures OutputKey(w.g, p) in w.refs <==> Tracked(w.g, p)
  {
    if OutputKey(w.g, p) in w.refs { CountedIsTracked(w, p); }
  }

  /** An output that was stored is gone if and only if the context does not retain outputs, the output
      is counted, all its readers have completed, and some reader had not when it was stored. */
  lemma GoneIff(w: Setup, es: seq<Event>, k: nat)
    requires Runnable(w.g) && Tracks(w) && DistinctKeys(w.g) && Possible(w, es)
    requires k < |After(w, es).threads| && Fired(After(w, es).threads[k].pc).Some?
    ensures var s := After(w, es);
      OutputKey(w.g, s.threads[k].node) !in s.outputs <==>
        && !w.retain && Tracked(w.g, s.threads[k].node)
        && AllReleased(w, s, s.threads[k].node) && !StoredLate(w, es, k)
  {
    var s := After(w, es);
    RunPresent(w, es, k);
    RunOneEach(w, es);
    RunCounts(w, es);
    CountedIff(w, s.threads[k].node);
    if Tracked(w.g, s.threads[k].node) { ExhaustedIff(w, s, s.threads[k].node); }
  }

  /** Stored late means: stored when every node that may read it had already completed. */
  lemma StoredLateMeans(w: Setup, es: seq<Event>, i: nat, k: nat)
    requires Runnable(w.g) && Tracks(w) && DistinctKeys(w.g) && i < |es| && Possible(w, es[..i])
    ensures StoredLateAt(w, es, i, k) <==>
      var s := After(w, es[..i]);
      && es[i].Settle? && es[i].t == k && k < |s.threads|
      && Tracked(w.g, s.threads[k].node) && AllReleased(w, s, s.threads[k].node)
  {
    var s := After(w, es[..i]);
    if k < |s.threads| {
      RunOneEach(w, es[..i]);
      RunCounts(w, es[..i]);
      CountedIff(w, s.threads[k].node);
      if Tracked(w.g, s.threads[k].node) { ExhaustedIff(w, s, s.threads[k].node); }
    }
  }
}
