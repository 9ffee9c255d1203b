/** Ordered start and reverse stop (internal/lifecycle/lifecycle.go), with one StartAll and any
    number of concurrent StopAll calls. */
module Lifecycle {
  import opened Common

  /** Where the call to StartAll is. Rolling back waits for the StopAll call with that index. */
  datatype StartPc =
    | NotCalled
    | Check(i: nat)                       // about to look at shuttingDown; after the last component too
    | Starting(i: nat)                    // inside Start of component i
    | Deciding(i: nat, ok: bool)          // Start returned, counter not yet updated
    | SelfStopping(i: nat)                // stopping the component that started during a shutdown
    | BeginRollback
    | RollingBack(call: nat)
    | StartDone(ok: bool)

  datatype StopCall =
    | StopBegin
    | Stopping(next: nat)                 // components 0..next-1 are still to be stopped
    | StopDone

  datatype State = State(
    n: nat,                               // components registered when StartAll took its snapshot
    started: nat,
    shuttingDown: bool,
    start: StartPc,
    stops: seq<StopCall>,
    startOk: seq<bool>,                   // history: Start of component i succeeded
    stopCount: seq<nat>,                  // history: how often component i was stopped
    stopLog: seq<(nat, nat)>)             // history: (StopAll call, component) in the order stopped

  function Init(n: nat): State {
    State(n, 0, false, NotCalled, [], seq(n, _ => false), seq(n, _ => 0), [])
  }

  datatype Event =
    | CallStart                           // StartAll takes its snapshot
    | CheckDown
    | StartReturns(ok: bool)
    | Decide
    | SelfStop
    | Rollback                            // the deferred StopAll of a failed start
    | RollbackDone
    | CallStop                            // somebody calls StopAll
    | Snapshot(k: nat)                    // StopAll's critical section
    | StopOne(k: nat)

  ghost predicate Enabled(s: State, e: Event) {
    match e
    case CallStart => s.start.NotCalled?
    case CheckDown => s.start.Check?
    case StartReturns(_) => s.start.Starting?
    case Decide => s.start.Deciding?
    case SelfStop => s.start.SelfStopping? && s.start.i < |s.stopCount|
    case Rollback => s.start.BeginRollback?
    case RollbackDone => s.start.RollingBack? && s.start.call < |s.stops| && s.stops[s.start.call].StopDone?
    case CallStop => true
    case Snapshot(k) => k < |s.stops| && s.stops[k].StopBegin?
    case StopOne(k) => k < |s.stops| && s.stops[k].Stopping? && 0 < s.stops[k].next <= |s.stopCount|
  }

  /** A call that has nothing left to stop returns. */
  function Remaining(next: nat): StopCall {
    if next == 0 then StopDone else Stopping(next)
  }

  function Apply(s: State, e: Event): State
    requires Enabled(s, e)
  {
    match e
    case CallStart => s.(start := Check(0))
    case CheckDown =>
      if s.shuttingDown then s.(start := BeginRollback)
      else if s.start.i < s.n then s.(start := Starting(s.start.i))
      else s.(start := StartDone(true))
    case StartReturns(ok) =>
      s.(start := Deciding(s.start.i, ok),
         startOk := if s.start.i < |s.startOk| then s.startOk[s.start.i := ok] else s.startOk)
    case Decide =>
      if !s.start.ok then s.(start := BeginRollback)
      else if s.shuttingDown then s.(start := SelfStopping(s.start.i))
      else s.(start := Check(s.start.i + 1), started := s.started + 1)
    case SelfStop =>
      s.(start := BeginRollback, stopCount := s.stopCount[s.start.i := s.stopCount[s.start.i] + 1])
    case Rollback => s.(start := RollingBack(|s.stops|), stops := s.stops + [StopBegin])
    case RollbackDone => s.(start := StartDone(false))
    case CallStop => s.(stops := s.stops + [StopBegin])
    case Snapshot(k) =>
      s.(shuttingDown := true, started := 0, stops := s.stops[k := Remaining(s.started)])
    case StopOne(k) =>
      var i := s.stops[k].next - 1;
      s.(stops := s.stops[k := Remaining(i)], stopCount := s.stopCount[i := s.stopCount[i] + 1],
         stopLog := s.stopLog + [(k, i)])
  }

  ghost predicate Possible(n: nat, es: seq<Event>)
    decreases |es|, 0
  {
    es == [] || (Possible(n, es[..|es|-1]) && Enabled(After(n, es[..|es|-1]), es[|es|-1]))
  }

  ghost function After(n: nat, es: seq<Event>): State
    requires Possible(n, es)
    decreases |es|, 1
  {
    if es == [] then Init(n) else Apply(After(n, es[..|es|-1]), es[|es|-1])
  }

  // ---------------------------------------------------------------------------
  // Every started component has exactly one owner until it is stopped

  ghost function Covers(i: nat): StopCall -> bool {
    (c: StopCall) => c.Stopping? && i < c.next
  }

  /** StartAll itself is responsible for a component that has started and is not counted yet. */
  ghost predicate InFlight(s: State, i: nat) {
    s.start == Deciding(i, true) || s.start == SelfStopping(i)
  }

  function Bit(b: bool): nat {
    if b then 1 else 0
  }

  /** Counted by the lifecycle, claimed by a StopAll call, in flight, or stopped: exactly one of
      these if the component has started, none otherwise. */
  ghost predicate OneOwner(s: State, i: nat) {
    && i < |s.startOk| && i < |s.stopCount|
    && Bit(i < s.started) + Tally(Covers(i), s.stops) + Bit(InFlight(s, i)) + s.stopCount[i] == Bit(s.startOk[i])
  }

  /** The position of StartAll: components from there on have not been started. */
  ghost predicate Positioned(s: State) {
    match s.start
    case NotCalled => s.started == 0 && NotStartedFrom(s, 0)
    case Check(i) => i <= s.n && NotStartedFrom(s, i) && (if s.shuttingDown then s.started == 0 else s.started == i)
    case Starting(i) => i < s.n && NotStartedFrom(s, i) && (if s.shuttingDown then s.started == 0 else s.started == i)
    case Deciding(i, ok) =>
      && i < s.n && NotStartedFrom(s, i + 1) && i < |s.startOk| && s.startOk[i] == ok
      && (if s.shuttingDown then s.started == 0 else s.started == i)
    case SelfStopping(i) => i < s.n && NotStartedFrom(s, i + 1) && s.shuttingDown && s.started == 0
    case BeginRollback => s.shuttingDown ==> s.started == 0
    case RollingBack(k) => k < |s.stops| && (s.shuttingDown ==> s.started == 0)
    case StartDone(ok) => (s.shuttingDown ==> s.started == 0) && (!ok ==> s.shuttingDown)
  }

  ghost predicate NotStartedFrom(s: State, i: nat) {
    forall j :: i <= j < |s.startOk| ==> !s.startOk[j]
  }

  ghost predicate Shaped(s: State) {
    && |s.startOk| == s.n == |s.stopCount| && s.started <= s.n
    && (forall k :: 0 <= k < |s.stops| ==> (s.stops[k].Stopping? ==> 0 < s.stops[k].next <= s.n))
    && (forall k :: 0 <= k < |s.stops| && !s.stops[k].StopBegin? ==> s.shuttingDown)
  }

  ghost predicate Inv(s: State) {
    Shaped(s) && Positioned(s) && forall i :: 0 <= i < s.n ==> OneOwner(s, i)
  }

  lemma CheckShaped(s: State, e: Event)
    requires Shaped(s) && Positioned(s) && Enabled(s, e) && (e.CallStart? || e.CheckDown?)
    ensures Shaped(Apply(s, e)) && Positioned(Apply(s, e))
  {
  }

  lemma ReturnShaped(s: State, e: Event)
    requires Shaped(s) && Positioned(s) && Enabled(s, e) && (e.StartReturns?)
    ensures Shaped(Apply(s, e)) && Positioned(Apply(s, e))
  {
  }

  lemma DecideShaped(s: State, e: Event)
    requires Shaped(s) && Positioned(s) && Enabled(s, e) && (e.Decide? || e.SelfStop?)
    ensures Shaped(Apply(s, e)) && Positioned(Apply(s, e))
  {
  }

  lemma RollbackShaped(s: State, e: Event)
    requires Shaped(s) && Positioned(s) && Enabled(s, e) && (e.Rollback? || e.RollbackDone?)
    ensures Shaped(Apply(s, e)) && Positioned(Apply(s, e))
  {
  }

  lemma SnapshotShaped(s: State, e: Event)
    requires Shaped(s) && Positioned(s) && Enabled(s, e) && (e.CallStop? || e.Snapshot?)
    ensures Shaped(Apply(s, e)) && Positioned(Apply(s, e))
  {
  }

  lemma StopOneShaped(s: State, e: Event)
    requires Shaped(s) && Positioned(s) && Enabled(s, e) && (e.StopOne?)
    ensures Shaped(Apply(s, e)) && Positioned(Apply(s, e))
  {
  }

  lemma StepShaped(s: State, e: Event)
    requires Shaped(s) && Positioned(s) && Enabled(s, e)
    ensures Shaped(Apply(s, e)) && Positioned(Apply(s, e))
  {
    if e.CallStart? || e.CheckDown? { CheckShaped(s, e); }
    else if e.StartReturns? { ReturnShaped(s, e); }
    else if e.Decide? || e.SelfStop? { DecideShaped(s, e); }
    else if e.Rollback? || e.RollbackDone? { RollbackShaped(s, e); }
    else if e.StopOne? { StopOneShaped(s, e); }
    else { SnapshotShaped(s, e); }
  }

  lemma CheckOwner(s: State, e: Event, i: nat)
    requires Shaped(s) && Positioned(s) && OneOwner(s, i) && Enabled(s, e) && i < s.n && (e.CallStart? || e.CheckDown? || e.RollbackDone?)
    ensures OneOwner(Apply(s, e), i)
  {
  }

  lemma ReturnOwner(s: State, e: Event, i: nat)
    requires Shaped(s) && Positioned(s) && OneOwner(s, i) && Enabled(s, e) && i < s.n && (e.StartReturns?)
    ensures OneOwner(Apply(s, e), i)
  {
  }

  lemma DecideOwner(s: State, e: Event, i: nat)
    requires Shaped(s) && Positioned(s) && OneOwner(s, i) && Enabled(s, e) && i < s.n && (e.Decide? || e.SelfStop?)
    ensures OneOwner(Apply(s, e), i)
  {
  }

  lemma CallOwner(s: State, e: Event, i: nat)
    requires Shaped(s) && Positioned(s) && OneOwner(s, i) && Enabled(s, e) && i < s.n && (e.Rollback? || e.CallStop?)
    ensures OneOwner(Apply(s, e), i)
  {
    TallyAppend(Covers(i), s.stops, StopBegin);
  }

  lemma SnapshotOwner(s: State, e: Event, i: nat)
    requires Shaped(s) && Positioned(s) && OneOwner(s, i) && Enabled(s, e) && i < s.n && (e.Snapshot?)
    ensures OneOwner(Apply(s, e), i)
  {
    TallyUpdate(Covers(i), s.stops, e.k, Apply(s, e).stops[e.k]);
  }

  lemma StopOneOwner(s: State, e: Event, i: nat)
    requires Shaped(s) && Positioned(s) && OneOwner(s, i) && Enabled(s, e) && i < s.n && (e.StopOne?)
    ensures OneOwner(Apply(s, e), i)
  {
    TallyUpdate(Covers(i), s.stops, e.k, Apply(s, e).stops[e.k]);
  }

  lemma StepOwner(s: State, e: Event, i: nat)
    requires Shaped(s) && Positioned(s) && OneOwner(s, i) && Enabled(s, e) && i < s.n
    ensures OneOwner(Apply(s, e), i)
  {
    if e.StartReturns? { ReturnOwner(s, e, i); }
    else if e.Decide? || e.SelfStop? { DecideOwner(s, e, i); }
    else if e.Rollback? || e.CallStop? { CallOwner(s, e, i); }
    else if e.Snapshot? { SnapshotOwner(s, e, i); }
    else if e.StopOne? { StopOneOwner(s, e, i); }
    else { CheckOwner(s, e, i); }
  }

  lemma {:induction false} RunInv(n: nat, es: seq<Event>)
    requires Possible(n, es)
    ensures Inv(After(n, es)) && After(n, es).n == n
    decreases |es|
  {
    if es == [] {
    } else {
      RunInv(n, es[..|es|-1]);
      var s, e := After(n, es[..|es|-1]), es[|es|-1];
      StepShaped(s, e);
      forall i | 0 <= i < n ensures OneOwner(Apply(s, e), i) { StepOwner(s, e, i); }
    }
  }

  /** Every call that was made has returned. */
  ghost predicate AllReturned(s: State) {
    && (s.start.NotCalled? || s.start.StartDone?)
    && forall k :: 0 <= k < |s.stops| ==> s.stops[k].StopDone?
  }

  /** When all calls have returned, every component whose Start succeeded has been stopped exactly
      once, unless StartAll returned nil and StopAll was never called; then none has been stopped.
      A component that did not start is never stopped. */
  lemma StoppedExactlyOnce(n: nat, es: seq<Event>, i: nat)
    requires Possible(n, es) && i < n && AllReturned(After(n, es))
    ensures var s := After(n, es);
      && i < |s.startOk| && i < |s.stopCount|
      && s.stopCount[i] == if s.startOk[i] && !(s.start == StartDone(true) && s.stops == []) then 1 else 0
  {
    RunInv(n, es);
    var s := After(n, es);
    assert OneOwner(s, i);
    forall k | 0 <= k < |s.stops| ensures !Covers(i)(s.stops[k]) {}
    TallyNone(Covers(i), s.stops);
    if s.stops != [] { assert s.stops[0].StopDone? && s.shuttingDown; }
    if s.start == StartDone(true) && s.stops == [] { StartedAll(n, es); }
  }

  /** Nothing shuts down unless somebody calls StopAll, and StartAll only succeeds with all running. */
  ghost predicate Quiet(s: State) {
    && (s.stops == [] ==> !s.shuttingDown)
    && (s.start == StartDone(true) && !s.shuttingDown ==> s.started == s.n)
  }

  lemma StepQuiet(s: State, e: Event)
    requires Shaped(s) && Positioned(s) && Quiet(s) && Enabled(s, e)
    ensures Quiet(Apply(s, e))
  {
  }

  lemma {:induction false} StartedAll(n: nat, es: seq<Event>)
    requires Possible(n, es)
    ensures Quiet(After(n, es))
    decreases |es|
  {
    if es != [] {
      StartedAll(n, es[..|es|-1]);
      RunInv(n, es[..|es|-1]);
      StepQuiet(After(n, es[..|es|-1]), es[|es|-1]);
    }
  }

  /** At every moment: no component is stopped twice, or without having started, or while it is
      still counted as running. */
  lemma NeverStoppedTwice(n: nat, es: seq<Event>, i: nat)
    requires Possible(n, es) && i < n
    ensures var s := After(n, es);
      && i < |s.startOk| && i < |s.stopCount|
      && s.stopCount[i] <= 1 && (s.stopCount[i] == 1 ==> s.startOk[i] && i >= s.started)
  {
    RunInv(n, es);
    assert OneOwner(After(n, es), i);
  }

  // ---------------------------------------------------------------------------
  // Reverse order

  /** What a StopAll call has stopped lies above what it still has to stop. */
  ghost predicate Above(s: State, entry: (nat, nat)) {
    && entry.0 < |s.stops|
    && match s.stops[entry.0]
       case StopBegin => false
       case Stopping(next) => entry.1 >= next
       case StopDone => true
  }

  ghost predicate Descending(s: State) {
    && (forall a :: 0 <= a < |s.stopLog| ==> Above(s, s.stopLog[a]))
    && (forall a, b :: 0 <= a < b < |s.stopLog| && s.stopLog[a].0 == s.stopLog[b].0 ==> s.stopLog[a].1 > s.stopLog[b].1)
  }

  lemma StepDescends(s: State, e: Event)
    requires Descending(s) && Enabled(s, e)
    ensures Descending(Apply(s, e))
  {
    var s' := Apply(s, e);
    forall a | 0 <= a < |s'.stopLog| ensures Above(s', s'.stopLog[a]) {
      if a < |s.stopLog| { assert Above(s, s.stopLog[a]); }
    }
    forall a, b | 0 <= a < b < |s'.stopLog| && s'.stopLog[a].0 == s'.stopLog[b].0
      ensures s'.stopLog[a].1 > s'.stopLog[b].1
    {
      assert Above(s, s.stopLog[a]);
    }
  }

  /** Each StopAll call stops its components in reverse registration order. */
  lemma {:induction false} StopsInReverse(n: nat, es: seq<Event>)
    requires Possible(n, es)
    ensures Descending(After(n, es))
    decreases |es|
  {
    if es != [] {
      StopsInReverse(n, es[..|es|-1]);
      StepDescends(After(n, es[..|es|-1]), es[|es|-1]);
    }
  }

  // ---------------------------------------------------------------------------
  // The time budget

  /** The budgets StopAll hands out for the given stopping times. Each is the equal share, whatever
      earlier components left unused: the share never exceeds what remains. */
  method StopBudgets(total: nat, elapsed: seq<nat>) returns (budgets: seq<nat>)
    ensures |budgets| == |elapsed|
    ensures forall i :: 0 <= i < |budgets| ==> budgets[i] == total / |elapsed|
  {
    budgets := [];
    if |elapsed| == 0 { return; }
    var share := total / |elapsed|;
    var remaining: int := total;
    assert share * |elapsed| <= total;
    for i := 0 to |elapsed|
      invariant |budgets| == i && remaining >= total - Times(i, share)
      invariant forall k :: 0 <= k < i ==> budgets[k] == share
    {
      TimesBelow(i + 1, |elapsed|, share);
      TimesIsProduct(|elapsed|, share);
      var budget := if share <= remaining then share else remaining;
      budgets := budgets + [budget];
      if elapsed[i] < budget { remaining := remaining - elapsed[i]; } else { remaining := remaining - budget; }
    }
  }

  ghost function Times(n: nat, x: nat): nat {
    if n == 0 then 0 else Times(n - 1, x) + x
  }

  lemma {:induction false} TimesIsProduct(n: nat, x: nat)
    ensures Times(n, x) == x * n
  {
    if n > 0 { TimesIsProduct(n - 1, x); }
  }

  lemma {:induction false} TimesBelow(m: nat, n: nat, x: nat)
    requires m <= n
    ensures Times(m, x) <= Times(n, x)
  {
    if m < n { TimesBelow(m, n - 1, x); }
  }
}
