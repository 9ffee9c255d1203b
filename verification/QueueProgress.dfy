/** The bounded queue (internal/bounded/queue.go) never blocks for a wrong reason: every use of it settles,
    and then the only calls that have not returned are Pops that wait for a value on an open, empty queue. */
module QueueProgress {
  import opened Common
  import opened BoundedQueue
  import opened QueueRuns
  import opened QueueTheorems

  /** A step of a call that has been made, as opposed to a new call or the end of a context. */
  predicate IsOwnStep<V>(e: Event<V>) {
    !e.NewPop? && !e.NewPush? && !e.NewClose? && !e.CancelCtx?
  }

  /** A Pop that rightly waits. */
  ghost predicate Waits<V>(s: State<V>, p: PopCall<V>) {
    p.pc.Parked? && s.core.buf == [] && !s.core.closed && !p.ctxDone
  }

  /** Every Push and Close has returned, and every Pop has returned or rightly waits. */
  ghost predicate Idle<V>(s: State<V>) {
    && s.lock.Free?
    && (forall j :: 0 <= j < |s.pushes| ==> s.pushes[j].PushDone?)
    && (forall c :: 0 <= c < |s.closes| ==> s.closes[c].CloseDone?)
    && (forall i :: 0 <= i < |s.pops| ==> s.pops[i].pc.Returned? || Waits(s, s.pops[i]))
  }

  // ---------------------------------------------------------------------------
  // A closed queue was closed by a call

  ghost predicate ClosedBySome<V>(s: State<V>) {
    s.core.closed ==> exists c :: 0 <= c < |s.closes| && (s.closes[c].CloseBroadcasting? || s.closes[c] == CloseDone(true))
  }

  lemma StepClosedBySome<V>(s: State<V>, e: Event<V>)
    requires ClosedBySome(s) && Enabled(s, e)
    ensures ClosedBySome(Apply(s, e))
  {
    var s' := Apply(s, e);
    if s.core.closed {
      var c :| 0 <= c < |s.closes| && (s.closes[c].CloseBroadcasting? || s.closes[c] == CloseDone(true));
      assert s'.closes[c].CloseBroadcasting? || s'.closes[c] == CloseDone(true);
    } else if e.CloseSwap? {
      assert s'.closes[e.c].CloseBroadcasting?;
    }
  }

  lemma {:induction false} RunClosedBySome<V>(capacity: nat, policy: Policy, es: seq<Event<V>>)
    requires Possible(capacity, policy, es)
    ensures ClosedBySome(After(capacity, policy, es))
    decreases |es|
  {
    if es != [] {
      RunClosedBySome(capacity, policy, es[..|es|-1]);
      StepClosedBySome(After(capacity, policy, es[..|es|-1]), es[|es|-1]);
    }
  }

  // ---------------------------------------------------------------------------
  // Somebody can move

  lemma HolderMoves<V>(s: State<V>) returns (e: Event<V>)
    requires Conserved(s) && Locked(s) && !s.lock.Free?
    ensures IsOwnStep(e) && Enabled(s, e)
  {
    if s.lock.PopHolds? {
      e := Park(s.lock.i);
    } else {
      var j := s.lock.j;
      if Offer(s.core, s.pushes[j].v).1 && SomeParked(s.pops) {
        var i: nat :| i < |s.pops| && IsParked(s.pops[i]);
        e := PushBody(j, Some(i));
      } else {
        e := PushBody(j, None);
      }
    }
  }

  lemma PopMovesOn<V>(s: State<V>, i: nat) returns (e: Event<V>)
    requires Locked(s) && s.lock.Free? && i < |s.pops| && !s.pops[i].pc.Returned? && !s.pops[i].pc.Parked?
    ensures IsOwnStep(e) && Enabled(s, e)
  {
    match s.pops[i].pc
    case Fast => e := FastPop(i);
    case Between => e := CheckCtx(i);
    case Slow => e := Look(i);
    case Woken => e := Look(i);
    case Deciding => assert false;
  }

  /** A parked Pop that should not wait is about to be woken by its watcher. */
  lemma WatcherMoves<V>(s: State<V>, i: nat) returns (e: Event<V>)
    requires NoLostWakeup(s) && AllWatched(s) && ClosedWakesAll(s) && ClosedBySome(s) && s.lock.Free?
    requires forall c :: 0 <= c < |s.closes| ==> s.closes[c].CloseDone?
    requires forall k :: 0 <= k < |s.pops| ==> s.pops[k].pc.Returned? || s.pops[k].pc.Parked?
    requires i < |s.pops| && s.pops[i].pc.Parked? && !Waits(s, s.pops[i])
    ensures IsOwnStep(e) && Enabled(s, e)
  {
    e := WatcherFires(i);
    assert IsParked(s.pops[i]) && Watched(s.pops[i]);
    TallyNone(IsWoken<V>(), s.pops);
    assert s.core.buf == [];
  }

  lemma SomebodyMoves<V>(s: State<V>) returns (e: Event<V>)
    requires Inv(s) && ClosedBySome(s) && !Idle(s)
    ensures IsOwnStep(e) && Enabled(s, e)
  {
    if !s.lock.Free? { e := HolderMoves(s); }
    else if j: nat :| j < |s.pushes| && !s.pushes[j].PushDone? {
      e := if s.pushes[j].PushStart? then PushFirst(j) else PushEnter(j);
    } else if c: nat :| c < |s.closes| && !s.closes[c].CloseDone? {
      e := if s.closes[c].CloseStart? then CloseSwap(c) else CloseBroadcast(c);
    } else if i: nat :| i < |s.pops| && !s.pops[i].pc.Returned? && !s.pops[i].pc.Parked? {
      e := PopMovesOn(s, i);
    } else {
      var i: nat :| i < |s.pops| && !s.pops[i].pc.Returned? && !Waits(s, s.pops[i]);
      e := WatcherMoves(s, i);
    }
  }

  // ---------------------------------------------------------------------------
  // Steps are used up

  /** The steps a Pop can still take, and those it can still cause by its watcher, with `n` Pops. */
  ghost function PopRank<V>(n: nat): PopCall<V> -> nat {
    (p: PopCall<V>) =>
      (if p.watching then 2 * n + 1 else 0) +
      match p.pc
      case Fast => 2 * n + 5
      case Between => 2 * n + 4
      case Slow => 2
      case Woken => 2
      case Deciding => 1
      case Parked => 0
      case Returned(_) => 0
  }

  ghost function PushRank<V>(): PushCall<V> -> nat {
    (p: PushCall<V>) => match p case PushStart(_) => 5 case PushLocking(_) => 4 case PushInside(_) => 3 case PushDone(_) => 0
  }

  ghost function CloseRank(n: nat): CloseCall -> nat {
    (c: CloseCall) => match c case CloseStart => 2 * n + 2 case CloseBroadcasting => 2 * n + 1 case CloseDone(_) => 0
  }

  /** How many steps the calls made so far can still take. */
  ghost function Left<V>(s: State<V>): nat {
    Sum(PopRank<V>(|s.pops|), s.pops) + Sum(PushRank<V>(), s.pushes) + Sum(CloseRank(|s.pops|), s.closes)
  }

  lemma {:induction false} WakingCosts<V>(n: nat, pops: seq<PopCall<V>>)
    ensures Sum(PopRank<V>(n), WakeAll(pops)) <= Sum(PopRank<V>(n), pops) + 2 * |pops|
  {
    if pops != [] {
      var m := |pops| - 1;
      WakingCosts(n, pops[..m]);
      assert WakeAll(pops) == WakeAll(pops[..m]) + [Wake(pops[m])];
      SumAppend(PopRank<V>(n), WakeAll(pops[..m]), Wake(pops[m]));
    }
  }

  lemma OnePopUses<V>(s: State<V>, s': State<V>, i: nat, p: PopCall<V>)
    requires i < |s.pops| && s'.pops == s.pops[i := p] && s'.pushes == s.pushes && s'.closes == s.closes
    requires PopRank<V>(|s.pops|)(p) < PopRank<V>(|s.pops|)(s.pops[i])
    ensures Left(s') < Left(s)
  {
    SumUpdate(PopRank<V>(|s.pops|), s.pops, i, p);
  }

  lemma PopUses<V>(s: State<V>, e: Event<V>)
    requires Enabled(s, e) && (e.FastPop? || e.CheckCtx? || e.Look? || e.Park?)
    ensures Left(Apply(s, e)) < Left(s)
  {
    var p := Apply(s, e).pops[e.i];
    assert PopRank<V>(|s.pops|)(p) < PopRank<V>(|s.pops|)(s.pops[e.i]);
    OnePopUses(s, Apply(s, e), e.i, p);
  }

  /** Switching the watcher off pays for waking everybody. */
  lemma WatcherPays<V>(n: nat, pops: seq<PopCall<V>>, i: nat, off: seq<PopCall<V>>)
    requires i < |pops| == n && pops[i].watching && off == pops[i := pops[i].(watching := false)]
    ensures Sum(PopRank<V>(n), off) + 2 * n + 1 == Sum(PopRank<V>(n), pops)
  {
    SumUpdate(PopRank<V>(n), pops, i, pops[i].(watching := false));
  }

  lemma WatcherUses<V>(s: State<V>, e: Event<V>)
    requires Enabled(s, e) && e.WatcherFires?
    ensures Left(Apply(s, e)) < Left(s)
  {
    var n, off := |s.pops|, s.pops[e.i := s.pops[e.i].(watching := false)];
    WatcherPays(n, s.pops, e.i, off);
    WakingCosts(n, off);
    assert Apply(s, e).pops == WakeAll(off);
  }

  lemma EnterUses<V>(s: State<V>, e: Event<V>)
    requires Enabled(s, e) && (e.PushFirst? || e.PushEnter?)
    ensures Left(Apply(s, e)) < Left(s)
  {
    SumUpdate(PushRank<V>(), s.pushes, e.j, Apply(s, e).pushes[e.j]);
  }

  lemma BodyUses<V>(s: State<V>, e: Event<V>)
    requires Enabled(s, e) && e.PushBody?
    ensures Left(Apply(s, e)) < Left(s)
  {
    SumUpdate(PushRank<V>(), s.pushes, e.j, Apply(s, e).pushes[e.j]);
    if e.woken.Some? { SumUpdate(PopRank<V>(|s.pops|), s.pops, e.woken.value, Wake(s.pops[e.woken.value])); }
  }

  lemma CloseUses<V>(s: State<V>, e: Event<V>)
    requires Enabled(s, e) && (e.CloseSwap? || e.CloseBroadcast?)
    ensures Left(Apply(s, e)) < Left(s)
  {
    SumUpdate(CloseRank(|s.pops|), s.closes, e.c, Apply(s, e).closes[e.c]);
    WakingCosts(|s.pops|, s.pops);
  }

  lemma StepUses<V>(s: State<V>, e: Event<V>)
    requires Enabled(s, e) && IsOwnStep(e)
    ensures Left(Apply(s, e)) < Left(s)
  {
    if e.FastPop? || e.CheckCtx? || e.Look? || e.Park? { PopUses(s, e); }
    else if e.WatcherFires? { WatcherUses(s, e); }
    else if e.PushFirst? || e.PushEnter? { EnterUses(s, e); }
    else if e.PushBody? { BodyUses(s, e); }
    else { CloseUses(s, e); }
  }

  // ---------------------------------------------------------------------------
  // Every use settles

  lemma Then<V>(capacity: nat, policy: Policy, es: seq<Event<V>>, e: Event<V>) returns (next: seq<Event<V>>)
    requires Possible(capacity, policy, es) && Enabled(After(capacity, policy, es), e)
    ensures next == es + [e] && Possible(capacity, policy, next)
    ensures After(capacity, policy, next) == Apply(After(capacity, policy, es), e)
  {
    next := es + [e];
    assert next[..|next|-1] == es;
  }

  /** Every run extends, without new calls, to one in which all Push and Close calls have returned and every
      Pop has returned or waits on an open, empty queue with its context alive. */
  lemma {:induction false} EveryUseSettles<V>(capacity: nat, policy: Policy, es: seq<Event<V>>) returns (es': seq<Event<V>>)
    requires capacity > 0 && Possible(capacity, policy, es)
    ensures es <= es' && Possible(capacity, policy, es') && Idle(After(capacity, policy, es'))
    ensures forall i :: |es| <= i < |es'| ==> IsOwnStep(es'[i])
    decreases Left(After(capacity, policy, es))
  {
    var s := After(capacity, policy, es);
    if Idle(s) {
      es' := es;
    } else {
      RunInv(capacity, policy, es);
      RunClosedBySome(capacity, policy, es);
      var e := SomebodyMoves(s);
      StepUses(s, e);
      var next := Then(capacity, policy, es, e);
      es' := EveryUseSettles(capacity, policy, next);
    }
  }

  /** No use goes on for ever: without new calls a run takes at most as many steps as its state allows. */
  lemma {:induction false} UsesEnd<V>(capacity: nat, policy: Policy, es: seq<Event<V>>, more: seq<Event<V>>)
    requires Possible(capacity, policy, es) && Possible(capacity, policy, es + more)
    requires forall i :: 0 <= i < |more| ==> IsOwnStep(more[i])
    ensures |more| + Left(After(capacity, policy, es + more)) <= Left(After(capacity, policy, es))
    decreases |more|
  {
    if more == [] {
      assert es + more == es;
    } else {
      var n := |more| - 1;
      var shorter := es + more[..n];
      assert (es + more)[..|es + more|-1] == shorter;
      UsesEnd(capacity, policy, es, more[..n]);
      StepUses(After(capacity, policy, shorter), more[n]);
    }
  }

  /** Whenever nobody holds the mutex and a value is buffered, a new Pop can return the oldest one at once. */
  lemma NewPopGetsHead<V>(capacity: nat, policy: Policy, es: seq<Event<V>>, s: State<V>) returns (es': seq<Event<V>>)
    requires Possible(capacity, policy, es) && s == After(capacity, policy, es) && s.lock.Free? && s.core.buf != []
    ensures es' == es + [NewPop, FastPop(|s.pops|)] && Possible(capacity, policy, es')
    ensures |s.pops| < |After(capacity, policy, es').pops|
    ensures After(capacity, policy, es').pops[|s.pops|].pc == Returned(Got(s.core.buf[0]))
    ensures After(capacity, policy, es').core.buf == s.core.buf[1..]
  {
    es' := Then(capacity, policy, es, NewPop);
    es' := Then(capacity, policy, es', FastPop(|s.pops|));
  }
}
