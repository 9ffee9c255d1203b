/** No call of the lifecycle (internal/lifecycle/lifecycle.go) blocks another for ever: every run extends
    to one in which all calls have returned, and an undisturbed StartAll starts everything. */
module LifecycleProgress {
  import opened Common
  import opened Lifecycle

  // ---------------------------------------------------------------------------
  // Every call can move

  /** A StopAll call that has not returned can take its next step. */
  lemma StopCanMove(n: nat, es: seq<Event>, k: nat) returns (e: Event)
    requires Possible(n, es) && k < |After(n, es).stops| && !After(n, es).stops[k].StopDone?
    ensures Enabled(After(n, es), e) && (e == Snapshot(k) || e == StopOne(k))
  {
    RunInv(n, es);
    e := if After(n, es).stops[k].StopBegin? then Snapshot(k) else StopOne(k);
  }

  /** StartAll is waiting for its own StopAll call. */
  ghost predicate AwaitsRollback(s: State) {
    s.start.RollingBack? && s.start.call < |s.stops| && !s.stops[s.start.call].StopDone?
  }

  /** StartAll, once called, can take its next step unless it is waiting for its own StopAll call. */
  lemma StartCanMove(n: nat, es: seq<Event>) returns (e: Event)
    requires Possible(n, es) && !After(n, es).start.NotCalled? && !After(n, es).start.StartDone?
    requires !AwaitsRollback(After(n, es))
    ensures Enabled(After(n, es), e) && !e.CallStart? && !e.CallStop? && !e.Snapshot? && !e.StopOne?
  {
    RunInv(n, es);
    match After(n, es).start
    case Check(_) => e := CheckDown;
    case Starting(_) => e := StartReturns(true);
    case Deciding(_, _) => e := Decide;
    case SelfStopping(_) => e := SelfStop;
    case BeginRollback => e := Rollback;
    case RollingBack(_) => e := RollbackDone;
  }

  // ---------------------------------------------------------------------------
  // Steps are used up

  /** The steps a StopAll call can still take. */
  ghost function StopRank(n: nat): StopCall -> nat {
    (c: StopCall) =>
      match c
      case StopBegin => n + 1
      case Stopping(next) => next
      case StopDone => 0
  }

  function StartRank(n: nat, pc: StartPc): int {
    match pc
    case NotCalled => 0
    case Check(i) => 3 * (n - i) + n + 7
    case Starting(i) => 3 * (n - i) + n + 6
    case Deciding(i, _) => 3 * (n - i) + n + 5
    case SelfStopping(_) => n + 4
    case BeginRollback => n + 3
    case RollingBack(_) => 1
    case StartDone(_) => 0
  }

  /** How many steps the calls made so far can still take. */
  ghost function Left(s: State): int {
    StartRank(s.n, s.start) + Sum(StopRank(s.n), s.stops)
  }

  lemma StopUses(s: State, e: Event)
    requires Shaped(s) && Enabled(s, e) && (e.Snapshot? || e.StopOne?)
    ensures Left(Apply(s, e)) < Left(s) && Apply(s, e).start == s.start && Apply(s, e).n == s.n
  {
    SumUpdate(StopRank(s.n), s.stops, e.k, Apply(s, e).stops[e.k]);
  }

  lemma StartUses(s: State, e: Event)
    requires Shaped(s) && Positioned(s) && Enabled(s, e) && !e.CallStart? && !e.CallStop? && !e.Snapshot? && !e.StopOne?
    ensures Left(Apply(s, e)) < Left(s)
  {
    if e.Rollback? { SumAppend(StopRank(s.n), s.stops, StopBegin); }
  }

  lemma LeftNatural(s: State)
    requires Positioned(s)
    ensures Left(s) >= 0
  {
  }

  lemma StepUses(s: State, e: Event)
    requires Shaped(s) && Positioned(s) && Enabled(s, e) && !e.CallStart? && !e.CallStop?
    ensures 0 <= Left(Apply(s, e)) < Left(s)
  {
    if e.Snapshot? || e.StopOne? { StopUses(s, e); } else { StartUses(s, e); }
    StepShaped(s, e);
    LeftNatural(Apply(s, e));
  }

  /** Every run extends, without further calls, to one in which all calls have returned. */
  lemma {:induction false} AllCallsReturn(n: nat, es: seq<Event>) returns (es': seq<Event>)
    requires Possible(n, es)
    ensures es <= es' && Possible(n, es') && AllReturned(After(n, es'))
    ensures forall i :: |es| <= i < |es'| ==> !es'[i].CallStart? && !es'[i].CallStop?
    decreases Left(After(n, es))
  {
    var s := After(n, es);
    RunInv(n, es);
    if AllReturned(s) {
      es' := es;
    } else {
      var e;
      if k: nat :| k < |s.stops| && !s.stops[k].StopDone? {
        e := StopCanMove(n, es, k);
      } else {
        e := StartCanMove(n, es);
      }
      StepUses(s, e);
      var next := Then(n, es, e);
      es' := AllCallsReturn(n, next);
    }
  }

  // ---------------------------------------------------------------------------
  // An undisturbed start

  /** Nobody has called StopAll, and StartAll is about to start component `i`. */
  ghost predicate Undisturbed(s: State, i: nat) {
    s.start == Check(i) && i <= s.n && s.stops == [] && !s.shuttingDown
  }

  lemma Then(n: nat, es: seq<Event>, e: Event) returns (next: seq<Event>)
    requires Possible(n, es) && Enabled(After(n, es), e)
    ensures next == es + [e] && Possible(n, next) && After(n, next) == Apply(After(n, es), e)
  {
    next := es + [e];
    assert next[..|next|-1] == es;
  }

  lemma {:induction false} StartsTheRest(n: nat, es: seq<Event>, i: nat) returns (es': seq<Event>)
    requires Possible(n, es) && After(n, es).n == n && Undisturbed(After(n, es), i)
    ensures Possible(n, es') && After(n, es').start == StartDone(true) && After(n, es').started == n
    decreases n - i
  {
    RunInv(n, es);
    es' := Then(n, es, CheckDown);
    if i < n {
      es' := Then(n, es', StartReturns(true));
      es' := Then(n, es', Decide);
      es' := StartsTheRest(n, es', i + 1);
    }
  }

  /** If no Start fails and nobody calls StopAll, StartAll can return nil with everything running. */
  lemma StartCanSucceed(n: nat) returns (es: seq<Event>)
    ensures Possible(n, es) && After(n, es).start == StartDone(true) && After(n, es).started == n
    ensures After(n, es).startOk == seq(n, _ => true)
  {
    es := [CallStart];
    assert es[..|es|-1] == [];
    es := StartsTheRest(n, es, 0);
    RunInv(n, es);
    var s := After(n, es);
    forall i | 0 <= i < n ensures s.startOk[i] { assert OneOwner(s, i); }
  }

  /** Component `i` has been stopped once if it was started, and not at all otherwise. */
  ghost predicate Settled(s: State, i: nat) {
    i < |s.startOk| && i < |s.stopCount| && s.stopCount[i] == if s.startOk[i] then 1 else 0
  }

  /** Whenever StopAll is called, the run can go on until it has returned and every component whose Start
      succeeded has been stopped exactly once. */
  lemma StopAllStopsAll(n: nat, es: seq<Event>) returns (es': seq<Event>)
    requires Possible(n, es)
    ensures es + [CallStop] <= es' && Possible(n, es') && AllReturned(After(n, es'))
    ensures forall i: nat :: i < n ==> Settled(After(n, es'), i)
  {
    var called := Then(n, es, CallStop);
    es' := AllCallsReturn(n, called);
    StopsStay(n, called, es');
    var s := After(n, es');
    assert s.stops != [];
    forall i: nat | i < n ensures Settled(s, i) { StoppedExactlyOnce(n, es', i); }
  }

  lemma StepKeepsCalls(s: State, e: Event)
    requires Enabled(s, e)
    ensures |s.stops| <= |Apply(s, e).stops|
  {
  }

  /** Calls are never forgotten. */
  lemma {:induction false} StopsStay(n: nat, es: seq<Event>, es': seq<Event>)
    requires es <= es' && Possible(n, es) && Possible(n, es')
    ensures |After(n, es).stops| <= |After(n, es').stops|
    decreases |es'|
  {
    if |es| < |es'| {
      var m := |es'| - 1;
      StopsStay(n, es, es'[..m]);
      StepKeepsCalls(After(n, es'[..m]), es'[m]);
    } else {
      assert es == es';
    }
  }
}
