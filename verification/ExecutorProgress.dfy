/** Every run ends: a bound on the number of steps, and no state in which the executor is stuck. */
module ExecutorProgress {
  import opened Common
  import opened WorkflowGraph
  import opened Executor
  import opened ExecutorInvariant
  import opened ExecutorOrder
  import opened ExecutorTheorems
  import opened ScheduleIndependence

  /** No node has more than `b` targets under one output or consumes more than `b` keys. */
  ghost predicate Bounded(w: Setup, b: nat) {
    && (forall u, o :: |Targets(w.g, u, o)| <= b)
    && (forall u :: |Keys(w, u)| <= b)
  }

  /** The most steps a goroutine can still take. */
  ghost function Left(w: Setup, b: nat): Thread -> nat {
    (t: Thread) =>
      match t.pc
      case Ready => 3 * b + 4
      case Running => 3 * b + 3
      case Evicting(_, k) => 2 * b + 1 + if k < |Keys(w, t.node)| then |Keys(w, t.node)| - k else 0
      case Following(o, k) => if k < |Targets(w.g, t.node, o)| then 2 * (|Targets(w.g, t.node, o)| - k) else 0
      case Arriving(o, k) => if k < |Targets(w.g, t.node, o)| then 2 * (|Targets(w.g, t.node, o)| - k) - 1 else 0
      case Failing => 1
      case Failed => 0
      case Aborted => 0
  }

  /** What `n` goroutines that have not been launched may cost, launch included. */
  ghost function Reserve(n: nat, b: nat): nat {
    if n == 0 then 0 else Reserve(n - 1, b) + 3 * b + 5
  }

  /** The most steps the whole run can still take. */
  ghost function Budget(w: Setup, b: nat, s: State): nat
    requires s.launched <= |w.g.entryNodes| && |s.threads| <= |w.g.nodes|
  {
    (|w.g.entryNodes| - s.launched) + (if s.cancelled then 0 else 1)
    + Reserve(|w.g.nodes| - |s.threads|, b) + Sum(Left(w, b), s.threads)
  }

  // ---------------------------------------------------------------------------
  // Goroutines never outnumber nodes

  lemma {:induction false} DistinctNodesCount(threads: seq<Thread>)
    requires forall j, k :: 0 <= j < k < |threads| ==> threads[j].node != threads[k].node
    ensures |set t | t in threads :: t.node| == |threads|
  {
    if threads != [] {
      var n := |threads| - 1;
      var front := threads[..n];
      DistinctNodesCount(front);
      var last := threads[n].node;
      assert threads == front + [threads[n]];
      assert (set t | t in threads :: t.node) == (set t | t in front :: t.node) + {last};
      assert last !in set t | t in front :: t.node;
    }
  }

  lemma NoMoreThanNodes(w: Setup, s: State)
    requires Inv(w, s)
    ensures |s.threads| <= |w.g.nodes|
  {
    OneGoroutineEach(w, s);
    DistinctNodesCount(s.threads);
    forall t | t in s.threads ensures t.node in w.g.nodes {
      var k :| 0 <= k < |s.threads| && s.threads[k] == t;
      assert InRange(w.g, s.threads[k]);
    }
    SubsetCardinality(Dispatched(s), w.g.nodes.Keys);
  }

  // ---------------------------------------------------------------------------
  // Every step spends budget

  /** One goroutine takes a step and no goroutine is launched. */
  lemma MoveSpends(w: Setup, b: nat, s: State, s': State, t: nat)
    requires t < |s.threads| == |s'.threads| && s'.threads == s.threads[t := s'.threads[t]]
    requires Left(w, b)(s'.threads[t]) < Left(w, b)(s.threads[t])
    requires s'.launched == s.launched <= |w.g.entryNodes| && |s.threads| <= |w.g.nodes| && (s.cancelled ==> s'.cancelled)
    ensures Budget(w, b, s') < Budget(w, b, s)
  {
    SumUpdate(Left(w, b), s.threads, t, s'.threads[t]);
  }

  lemma LaunchSpends(w: Setup, b: nat, s: State, s': State, x: NodeId)
    requires s'.launched == s.launched + 1 <= |w.g.entryNodes| && s'.cancelled == s.cancelled
    requires s'.threads == s.threads + [Thread(x, Ready)] && |s'.threads| <= |w.g.nodes|
    ensures Budget(w, b, s') < Budget(w, b, s)
  {
    SumAppend(Left(w, b), s.threads, Thread(x, Ready));
  }

  lemma DispatchSpends(w: Setup, b: nat, s: State, s': State, t: nat, v: NodeId)
    requires t < |s.threads| && |s'.threads| == |s.threads| + 1 <= |w.g.nodes|
    requires s'.threads == s.threads[t := s'.threads[t]] + [Thread(v, Ready)]
    requires Left(w, b)(s'.threads[t]) < Left(w, b)(s.threads[t])
    requires s'.launched == s.launched <= |w.g.entryNodes| && s'.cancelled == s.cancelled
    ensures Budget(w, b, s') < Budget(w, b, s)
  {
    SumUpdate(Left(w, b), s.threads, t, s'.threads[t]);
    SumAppend(Left(w, b), s.threads[t := s'.threads[t]], Thread(v, Ready));
  }

  lemma ArriveSpends(w: Setup, b: nat, s: State, t: nat)
    requires AtArrival(w, s, t) && s.launched <= |w.g.entryNodes|
    requires |s.threads| <= |w.g.nodes| && |DoArrive(w, s, t).threads| <= |w.g.nodes|
    ensures Budget(w, b, DoArrive(w, s, t)) < Budget(w, b, s)
  {
    var s' := DoArrive(w, s, t);
    if |s'.threads| == |s.threads| {
      MoveSpends(w, b, s, s', t);
    } else {
      DispatchSpends(w, b, s, s', t, NextTarget(w.g, s.threads[t]));
    }
  }

  lemma SwapSpends(w: Setup, b: nat, s: State, t: nat)
    requires AtSwap(w, s, t) && s.launched <= |w.g.entryNodes| && |s.threads| <= |w.g.nodes|
    ensures Budget(w, b, DoSwap(w, s, t)) < Budget(w, b, s)
  {
    MoveSpends(w, b, s, DoSwap(w, s, t), t);
  }

  lemma EvictSpends(w: Setup, b: nat, s: State, t: nat)
    requires Bounded(w, b) && t < |s.threads| && s.threads[t].pc.Evicting?
    requires s.launched <= |w.g.entryNodes| && |s.threads| <= |w.g.nodes|
    ensures Budget(w, b, DoEvict(w, s, t)) < Budget(w, b, s)
  {
    MoveSpends(w, b, s, DoEvict(w, s, t), t);
  }

  lemma LocalSpends(w: Setup, b: nat, s: State, e: Event)
    requires Bounded(w, b) && Enabled(w, s, e) && (e.Check? || e.Settle? || e.Abort?)
    requires s.launched <= |w.g.entryNodes| && |s.threads| <= |w.g.nodes|
    ensures Budget(w, b, Apply(w, s, e)) < Budget(w, b, s)
  {
    var pc := LocalStep(w, s, e);
    MoveSpends(w, b, s, Apply(w, s, e), e.t);
  }

  lemma StepSpends(w: Setup, b: nat, s: State, e: Event)
    requires Bounded(w, b) && Enabled(w, s, e) && s.launched <= |w.g.entryNodes|
    requires |s.threads| <= |w.g.nodes| && |Apply(w, s, e).threads| <= |w.g.nodes|
    ensures Budget(w, b, Apply(w, s, e)) < Budget(w, b, s)
  {
    if e.Launch? { LaunchSpends(w, b, s, Apply(w, s, e), w.g.entryNodes[s.launched]); }
    else if e.Evict? { EvictSpends(w, b, s, e.t); }
    else if e.Swap? { SwapSpends(w, b, s, e.t); }
    else if e.Arrive? { ArriveSpends(w, b, s, e.t); }
    else if !e.Cancel? { LocalSpends(w, b, s, e); }
  }

  /** No run has more steps than the initial budget. */
  lemma {:induction false} RunsEnd(w: Setup, b: nat, es: seq<Event>)
    requires Runnable(w.g) && Bounded(w, b) && Possible(w, es)
    ensures After(w, es).launched <= |w.g.entryNodes| && |After(w, es).threads| <= |w.g.nodes|
    ensures |es| + Budget(w, b, After(w, es)) <= Budget(w, b, Init(w))
    decreases |es|
  {
    RunInv(w, es);
    NoMoreThanNodes(w, After(w, es));
    if es != [] {
      RunsEnd(w, b, es[..|es|-1]);
      StepSpends(w, b, After(w, es[..|es|-1]), es[|es|-1]);
    }
  }

  // ---------------------------------------------------------------------------
  // No deadlock, and a run for every choice

  /** A node may only follow "error" if it has error edges. */
  ghost predicate Followable(g: CompiledGraph, c: Choice) {
    forall u :: c(u) == "error" ==> Targets(g, u, "error") != []
  }

  function Repeat<T>(n: nat, x: T): (r: seq<T>)
    ensures |r| == n && forall i :: 0 <= i < n ==> r[i] == x
  {
    seq(n, _ => x)
  }

  lemma {:induction false} FailingRetriesFollowError(g: CompiledGraph, u: NodeId, targets: seq<NodeId>, tries: seq<Attempt>)
    requires |tries| == |targets| && forall i :: 0 <= i < |tries| ==> tries[i] == Output("error")
    ensures Retried(g, u, targets, tries) == Follow("error")
  {
    if targets != [] { FailingRetriesFollowError(g, u, targets[1..], tries[1..]); }
  }

  lemma ChoiceSettles(g: CompiledGraph, u: NodeId, c: Choice) returns (tries: seq<Attempt>)
    requires Followable(g, c)
    ensures |tries| == |Targets(g, u, "error")| && Settled(g, u, Output(c(u)), tries) == Follow(c(u))
  {
    tries := Repeat(|Targets(g, u, "error")|, Output("error"));
    FailingRetriesFollowError(g, u, Targets(g, u, "error"), tries);
  }

  /** Nothing has failed, and everything fired so far follows the choice. */
  ghost predicate OnCourse(s: State, c: Choice) {
    !s.cancelled && s.firstErr.None? && Obeys(s, c)
  }

  lemma MoveOnCourse(s: State, s': State, t: nat, c: Choice)
    requires OnCourse(s, c) && s'.cancelled == s.cancelled && s'.firstErr == s.firstErr
    requires t < |s.threads| && LaunchesOne(s, s') && s'.threads[..|s.threads|] == s.threads[t := s'.threads[t]]
    requires Fired(s'.threads[t].pc).Some? ==> Fired(s'.threads[t].pc).value == c(s'.threads[t].node)
    ensures OnCourse(s', c)
  {
    forall k | 0 <= k < |s'.threads| && Fired(s'.threads[k].pc).Some?
      ensures Fired(s'.threads[k].pc).value == c(s'.threads[k].node)
    {
      if k < |s.threads| && k != t { assert s'.threads[k] == s'.threads[..|s.threads|][k] == s.threads[k]; }
    }
  }

  lemma SharedOnCourse(w: Setup, s: State, e: Event, c: Choice)
    requires OnCourse(s, c) && Enabled(w, s, e) && (e.Evict? || e.Swap? || e.Arrive?)
    ensures OnCourse(Apply(w, s, e), c)
  {
    var s' := Apply(w, s, e);
    if e.Evict? { EvictMoves(w, s, e.t); }
    else if e.Swap? { SwapMoves(w, s, e.t); }
    else { ArriveMoves(w, s, e.t); }
    MoveOnCourse(s, s', e.t, c);
  }

  lemma CheckOnCourse(w: Setup, s: State, k: nat, c: Choice)
    requires OnCourse(s, c) && Enabled(w, s, Check(k))
    ensures OnCourse(Apply(w, s, Check(k)), c)
  {
    MoveOnCourse(s, Apply(w, s, Check(k)), k, c);
  }

  lemma SettleOnCourse(w: Setup, s: State, k: nat, c: Choice) returns (e: Event)
    requires OnCourse(s, c) && Followable(w.g, c) && k < |s.threads| && s.threads[k].pc.Running?
    ensures Enabled(w, s, e) && OnCourse(Apply(w, s, e), c)
    ensures e.Settle? && e.t == k && Fired(Apply(w, s, e).threads[k].pc) == Some(c(s.threads[k].node))
  {
    var u := s.threads[k].node;
    var tries := ChoiceSettles(w.g, u, c);
    e := Settle(k, Output(c(u)), tries);
    MoveOnCourse(s, DoSettle(w, s, k, Follow(c(u))), k, c);
  }

  /** A goroutine that has not finished can take a step that follows the choice. */
  lemma GoroutineCanStep(w: Setup, s: State, c: Choice, k: nat) returns (e: Event)
    requires Followable(w.g, c) && OnCourse(s, c) && k < |s.threads|
    requires InRange(w.g, s.threads[k]) && Accounted(s, s.threads[k]) && !Finished(w.g, s.threads[k])
    ensures Enabled(w, s, e) && OnCourse(Apply(w, s, e), c)
    ensures !e.Launch? && !e.Cancel? && e.t == k
  {
    if s.threads[k].pc.Ready? { e := Check(k); CheckOnCourse(w, s, k, c); }
    else if s.threads[k].pc.Running? { e := SettleOnCourse(w, s, k, c); }
    else {
      e := if s.threads[k].pc.Evicting? then Evict(k) else if s.threads[k].pc.Following? then Swap(k) else Arrive(k);
      SharedOnCourse(w, s, e, c);
    }
  }

  lemma LaunchOnCourse(w: Setup, s: State, c: Choice)
    requires OnCourse(s, c) && s.launched < |w.g.entryNodes|
    ensures OnCourse(Apply(w, s, Launch), c)
  {
  }

  /** Unless all goroutines have finished, some step is possible. */
  lemma CanStep(w: Setup, s: State, c: Choice) returns (e: Event)
    requires Inv(w, s) && FailuresRecorded(s) && Followable(w.g, c) && OnCourse(s, c) && !Quiescent(w, s)
    ensures Enabled(w, s, e) && OnCourse(Apply(w, s, e), c)
  {
    if s.launched < |w.g.entryNodes| {
      e := Launch;
      LaunchOnCourse(w, s, c);
    } else {
      var t :| t in s.threads && !Finished(w.g, t);
      var k :| 0 <= k < |s.threads| && s.threads[k] == t;
      assert InRange(w.g, s.threads[k]) && Accounted(s, s.threads[k]);
      e := GoroutineCanStep(w, s, c, k);
    }
  }

  /** Any run that is on course for a choice can be continued to a clean end that follows it. */
  lemma {:induction false} RunsOn(w: Setup, b: nat, es: seq<Event>, c: Choice) returns (es': seq<Event>)
    requires Runnable(w.g) && Bounded(w, b) && Followable(w.g, c) && Possible(w, es) && OnCourse(After(w, es), c)
    ensures es <= es' && Possible(w, es') && Clean(w, After(w, es')) && Obeys(After(w, es'), c)
    decreases Budget(w, b, Init(w)) - |es|
  {
    RunInv(w, es);
    RunRecords(w, es);
    if Quiescent(w, After(w, es)) {
      es' := es;
    } else {
      var e := CanStep(w, After(w, es), c);
      var next := es + [e];
      assert next[..|next|-1] == es;
      RunsEnd(w, b, next);
      es' := RunsOn(w, b, next, c);
    }
  }

  // ---------------------------------------------------------------------------
  // A bound always exists

  lemma {:induction false} SequencesBounded<K, T>(m: map<K, seq<T>>) returns (b: nat)
    ensures forall k :: k in m ==> |m[k]| <= b
    decreases |m|
  {
    if m == map[] {
      b := 0;
    } else {
      var k :| k in m;
      var rest := map x | x in m && x != k :: m[x];
      assert rest.Keys == m.Keys - {k};
      assert |rest| == |rest.Keys| < |m.Keys|;
      b := SequencesBounded(rest);
      if |m[k]| > b { b := |m[k]|; }
      forall x | x in m ensures |m[x]| <= b { if x != k { assert x in rest; } }
    }
  }

  lemma {:induction false} AdjacencyBounded(m: Adjacency) returns (b: nat)
    ensures forall u, o :: u in m && o in m[u] ==> |m[u][o]| <= b
    decreases |m|
  {
    if m == map[] {
      b := 0;
    } else {
      var u :| u in m;
      var rest := map x | x in m && x != u :: m[x];
      assert rest.Keys == m.Keys - {u};
      assert |rest| == |rest.Keys| < |m.Keys|;
      b := AdjacencyBounded(rest);
      var b' := SequencesBounded(m[u]);
      if b' > b { b := b'; }
      forall x, o | x in m && o in m[x] ensures |m[x][o]| <= b { if x != u { assert x in rest && rest[x] == m[x]; } }
    }
  }

  lemma BoundExists(w: Setup) returns (b: nat)
    ensures Bounded(w, b)
  {
    b := AdjacencyBounded(w.g.adjacency);
    var b' := SequencesBounded(w.consumers);
    if b' > b { b := b'; }
  }

  /** Every followable choice has a clean run, so the least closed set is really executed. */
  lemma EveryChoiceHasARun(w: Setup, c: Choice) returns (es: seq<Event>)
    requires Runnable(w.g) && Followable(w.g, c)
    ensures Possible(w, es) && Clean(w, After(w, es)) && Obeys(After(w, es), c)
    ensures LeastClosed(w.g, c, Dispatched(After(w, es)))
  {
    var b := BoundExists(w);
    es := RunsOn(w, b, [], c);
    CleanRunIsLeast(w, es, c);
  }

  /** Whatever the scheduler does, a run has boundedly many steps. */
  lemma RunLengthsBounded(w: Setup) returns (n: nat)
    requires Runnable(w.g)
    ensures forall es :: Possible(w, es) ==> |es| <= n
  {
    var b := BoundExists(w);
    n := Budget(w, b, Init(w));
    forall es | Possible(w, es) ensures |es| <= n { RunsEnd(w, b, es); }
  }

  // ---------------------------------------------------------------------------
  // Failed and cancelled runs

  /** The goroutine that takes the step. */
  ghost predicate StepOf(e: Event, k: nat) {
    match e
    case Launch => false
    case Cancel => false
    case Check(t) => t == k
    case Settle(t, _, _) => t == k
    case Evict(t) => t == k
    case Swap(t) => t == k
    case Arrive(t) => t == k
    case Abort(t) => t == k
  }

  /** In any reachable state, also after failures and cancellation, a goroutine that has not finished
      can move on its own: no goroutine ever waits for another. */
  lemma NoGoroutineWaits(w: Setup, es: seq<Event>, k: nat) returns (e: Event)
    requires Runnable(w.g) && Possible(w, es) && k < |After(w, es).threads|
    requires !Finished(w.g, After(w, es).threads[k])
    ensures Enabled(w, After(w, es), e) && StepOf(e, k)
  {
    RunInv(w, es);
    var s := After(w, es);
    assert InRange(w.g, s.threads[k]);
    e := OwnStep(w, s, k);
  }

  lemma OwnStep(w: Setup, s: State, k: nat) returns (e: Event)
    requires k < |s.threads| && InRange(w.g, s.threads[k]) && !Finished(w.g, s.threads[k])
    ensures Enabled(w, s, e) && StepOf(e, k)
  {
    match s.threads[k].pc
    case Ready => e := Check(k);
    case Running => e := Settle(k, Structural, Repeat(|Targets(w.g, s.threads[k].node, "error")|, Structural));
    case Evicting(_, _) => e := Evict(k);
    case Following(_, _) => e := Swap(k);
    case Arriving(_, _) => e := Arrive(k);
    case Failing => e := Abort(k);
  }

  lemma LaunchedWithin(w: Setup, es: seq<Event>)
    requires Runnable(w.g) && Possible(w, es)
    ensures After(w, es).launched <= |w.g.entryNodes|
  {
    RunInv(w, es);
  }

  lemma Unfinished(w: Setup, s: State) returns (k: nat)
    requires s.launched == |w.g.entryNodes| && !Quiescent(w, s)
    ensures k < |s.threads| && !Finished(w.g, s.threads[k])
  {
    var t :| t in s.threads && !Finished(w.g, t);
    k :| 0 <= k < |s.threads| && s.threads[k] == t;
  }

  /** Until the wait can return, some step other than a cancellation is possible. */
  lemma NeverStuck(w: Setup, es: seq<Event>) returns (e: Event)
    requires Runnable(w.g) && Possible(w, es) && !Quiescent(w, After(w, es))
    ensures Enabled(w, After(w, es), e) && !e.Cancel?
  {
    LaunchedWithin(w, es);
    if After(w, es).launched < |w.g.entryNodes| {
      e := Launch;
    } else {
      var k := Unfinished(w, After(w, es));
      e := NoGoroutineWaits(w, es, k);
    }
  }

  /** Every run, whatever has failed or been cancelled in it, extends to one after which the wait
      returns; with `RunLengthsBounded`, every run that is continued as long as possible does. */
  lemma {:induction false} EveryRunReturns(w: Setup, b: nat, es: seq<Event>) returns (es': seq<Event>)
    requires Runnable(w.g) && Bounded(w, b) && Possible(w, es)
    ensures es <= es' && Possible(w, es') && Quiescent(w, After(w, es'))
    decreases Budget(w, b, Init(w)) - |es|
  {
    if Quiescent(w, After(w, es)) {
      es' := es;
    } else {
      var e := NeverStuck(w, es);
      var next := es + [e];
      assert next[..|next|-1] == es;
      RunsEnd(w, b, next);
      es' := EveryRunReturns(w, b, next);
    }
  }

  /** The wait always returns: no run is longer than a fixed bound, and a run that cannot be
      continued except by cancelling has finished all its goroutines. */
  lemma WaitReturns(w: Setup) returns (n: nat)
    requires Runnable(w.g)
    ensures forall es :: Possible(w, es) ==> |es| <= n
    ensures forall es :: Possible(w, es) && (forall e :: Enabled(w, After(w, es), e) ==> e.Cancel?) ==>
      Quiescent(w, After(w, es))
  {
    n := RunLengthsBounded(w);
    forall es | Possible(w, es) && (forall e :: Enabled(w, After(w, es), e) ==> e.Cancel?)
      ensures Quiescent(w, After(w, es))
    {
      if !Quiescent(w, After(w, es)) { var e := NeverStuck(w, es); }
    }
  }
}
