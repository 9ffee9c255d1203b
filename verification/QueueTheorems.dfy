/** Invariants of every concurrent use of the bounded queue. */
module QueueTheorems {
  import opened Common
  import opened BoundedQueue
  import opened QueueRuns

  // ---------------------------------------------------------------------------
  // Conservation

  lemma {:induction false} ValuesAppend<V>(d: seq<Departure<V>>, x: Departure<V>)
    ensures Values(d + [x]) == Values(d) + [x.v]
  {
    assert (d + [x])[..|d|] == d;
  }

  lemma TakeConserves<V>(s: State<V>, i: nat)
    requires Conserved(s) && i < |s.pops| && s.core.buf != []
    ensures Conserved(TakeInto(s, i))
  {
    ValuesAppend(s.departed, Delivered(s.core.buf[0], i));
    TallyAppend(IsEviction<V>(), s.departed, Delivered(s.core.buf[0], i));
    assert s.core.buf == [s.core.buf[0]] + s.core.buf[1..];
  }

  /** Accepting a value keeps the order, with or without evicting the head first. */
  lemma AppendsInOrder<V>(departed: seq<V>, buf: seq<V>, v: V)
    ensures departed + buf + [v] == departed + (buf + [v])
    ensures buf != [] ==> departed + buf + [v] == departed + [buf[0]] + (buf[1..] + [v])
  {
  }

  lemma PushConserves<V>(s: State<V>, j: nat, woken: Option<nat>)
    requires Conserved(s) && j < |s.pushes| && s.pushes[j].PushInside?
    requires woken.Some? ==> woken.value < |s.pops|
    ensures Conserved(DoPush(s, j, woken))
  {
    AppendsInOrder(Values(s.departed), s.core.buf, s.pushes[j].v);
    if |s.core.buf| >= s.core.capacity && s.core.policy.DropOldest? {
      var head := Evicted(s.core.buf[0]);
      ValuesAppend(s.departed, head);
      TallyAppend(IsEviction<V>(), s.departed, head);
    }
  }

  lemma StepConserves<V>(s: State<V>, e: Event<V>)
    requires Conserved(s) && Enabled(s, e)
    ensures Conserved(Apply(s, e))
  {
    if (e.FastPop? || e.Look?) && s.core.buf != [] { TakeConserves(s, e.i); }
    else if e.PushBody? { PushConserves(s, e.j, e.woken); }
  }

  // ---------------------------------------------------------------------------
  // The mutex

  /** Exactly the holder recorded is inside a critical section, and a Pop about to wait has seen an
      empty buffer that nobody else can touch. */
  ghost predicate Locked<V>(s: State<V>) {
    && (forall i :: 0 <= i < |s.pops| ==> (s.pops[i].pc.Deciding? <==> s.lock == PopHolds(i)))
    && (forall j :: 0 <= j < |s.pushes| ==> (s.pushes[j].PushInside? <==> s.lock == PushHolds(j)))
    && (s.lock.PopHolds? ==> s.lock.i < |s.pops| && s.core.buf == [])
    && (s.lock.PushHolds? ==> s.lock.j < |s.pushes|)
  }

  lemma PopStepLocked<V>(s: State<V>, e: Event<V>)
    requires Locked(s) && Enabled(s, e)
    requires e.NewPop? || e.CancelCtx? || e.FastPop? || e.CheckCtx? || e.Look? || e.Park? || e.WatcherFires?
    ensures Locked(Apply(s, e))
  {
  }

  lemma PushStepLocked<V>(s: State<V>, e: Event<V>)
    requires Locked(s) && Enabled(s, e) && (e.NewPush? || e.PushFirst? || e.PushEnter? || e.PushBody?)
    ensures Locked(Apply(s, e))
  {
  }

  lemma StepLocked<V>(s: State<V>, e: Event<V>)
    requires Locked(s) && Enabled(s, e)
    ensures Locked(Apply(s, e))
  {
    if e.NewPush? || e.PushFirst? || e.PushEnter? || e.PushBody? { PushStepLocked(s, e); }
    else if !e.NewClose? && !e.CloseSwap? && !e.CloseBroadcast? { PopStepLocked(s, e); }
  }

  // ---------------------------------------------------------------------------
  // Wake-ups

  ghost function IsWoken<V>(): PopCall<V> -> bool {
    (p: PopCall<V>) => p.pc.Woken?
  }

  ghost predicate SomeParked<V>(pops: seq<PopCall<V>>) {
    exists i :: 0 <= i < |pops| && IsParked(pops[i])
  }

  /** While a Pop is parked unsignalled, buffered values do not outnumber the Pops that have been
      woken and have not run yet. */
  ghost predicate NoLostWakeup<V>(s: State<V>) {
    SomeParked(s.pops) ==> |s.core.buf| <= Tally(IsWoken<V>(), s.pops)
  }

  lemma NoneParkedAfterBroadcast<V>(pops: seq<PopCall<V>>)
    ensures !SomeParked(WakeAll(pops))
  {
  }

  /** One Pop call moves; it may stop being woken only together with taking a value or finding none. */
  lemma PopMoves<V>(s: State<V>, s': State<V>, i: nat, p: PopCall<V>)
    requires NoLostWakeup(s) && i < |s.pops| && s'.pops == s.pops[i := p] && !s.pops[i].pc.Parked?
    requires p.pc.Parked? ==> s'.core.buf == []
    requires !p.pc.Woken? && (s.pops[i].pc.Woken? ==> |s'.core.buf| == 0 || |s'.core.buf| < |s.core.buf|)
    requires |s'.core.buf| <= |s.core.buf|
    ensures NoLostWakeup(s')
  {
    TallyUpdate(IsWoken<V>(), s.pops, i, p);
    if SomeParked(s'.pops) && |s'.core.buf| > 0 {
      var k :| 0 <= k < |s'.pops| && IsParked(s'.pops[k]);
      assert k != i && IsParked(s.pops[k]);
    }
  }

  /** A signal after an accepted value adds one woken Pop for at most one more value. */
  lemma PushWakes<V>(s: State<V>, j: nat, woken: Option<nat>)
    requires NoLostWakeup(s) && Enabled(s, PushBody(j, woken))
    ensures NoLostWakeup(DoPush(s, j, woken))
  {
    var s' := DoPush(s, j, woken);
    if woken.Some? {
      TallyUpdate(IsWoken<V>(), s.pops, woken.value, Wake(s.pops[woken.value]));
      assert SomeParked(s.pops);
    } else if SomeParked(s.pops) {
      assert !Offer(s.core, s.pushes[j].v).1;
    }
  }

  lemma CtxCancelWakes<V>(s: State<V>, s': State<V>, i: nat)
    requires NoLostWakeup(s) && i < |s.pops| && s'.core == s.core
    requires s'.pops == s.pops[i := s.pops[i].(ctxDone := true)]
    ensures NoLostWakeup(s')
  {
    TallyUpdate(IsWoken<V>(), s.pops, i, s'.pops[i]);
    if SomeParked(s'.pops) {
      var k :| 0 <= k < |s'.pops| && IsParked(s'.pops[k]);
      assert IsParked(s.pops[k]);
    }
  }

  lemma NewPopWakes<V>(s: State<V>, s': State<V>, p: PopCall<V>)
    requires NoLostWakeup(s) && s'.core == s.core && s'.pops == s.pops + [p] && !p.pc.Parked?
    ensures NoLostWakeup(s')
  {
    TallyAppend(IsWoken<V>(), s.pops, p);
    if SomeParked(s'.pops) {
      var k :| 0 <= k < |s'.pops| && IsParked(s'.pops[k]);
      assert IsParked(s.pops[k]);
    }
  }

  lemma LookWakes<V>(s: State<V>, e: Event<V>)
    requires NoLostWakeup(s) && Enabled(s, e) && (e.FastPop? || e.CheckCtx? || e.Look?)
    ensures NoLostWakeup(Apply(s, e))
  {
    PopMoves(s, Apply(s, e), e.i, Apply(s, e).pops[e.i]);
  }

  lemma ParkWakes<V>(s: State<V>, i: nat)
    requires Locked(s) && NoLostWakeup(s) && Enabled(s, Park(i))
    ensures NoLostWakeup(Apply(s, Park(i)))
  {
    PopMoves(s, Apply(s, Park(i)), i, Apply(s, Park(i)).pops[i]);
  }

  lemma StepWakes<V>(s: State<V>, e: Event<V>)
    requires Locked(s) && NoLostWakeup(s) && Enabled(s, e)
    ensures NoLostWakeup(Apply(s, e))
  {
    if e.NewPop? { NewPopWakes(s, Apply(s, e), PopCall(Fast, false, false)); }
    else if e.CancelCtx? { CtxCancelWakes(s, Apply(s, e), e.i); }
    else if e.FastPop? || e.CheckCtx? || e.Look? { LookWakes(s, e); }
    else if e.Park? { ParkWakes(s, e.i); }
    else if e.PushBody? { PushWakes(s, e.j, e.woken); }
    else if e.WatcherFires? { NoneParkedAfterBroadcast(s.pops[e.i := s.pops[e.i].(watching := false)]); }
    else if e.CloseBroadcast? { NoneParkedAfterBroadcast(s.pops); }
  }

  // ---------------------------------------------------------------------------
  // Contexts and closing

  /** A Pop that may wait has a watcher that will wake it if its context ends. */
  ghost predicate Watched<V>(p: PopCall<V>) {
    && (p.pc.Deciding? || p.pc.Parked? ==> p.watching)
    && (p.pc.Slow? || p.pc.Woken? ==> p.watching || p.ctxDone)
  }

  ghost predicate AllWatched<V>(s: State<V>) {
    forall i :: 0 <= i < |s.pops| ==> Watched(s.pops[i])
  }

  lemma StepWatched<V>(s: State<V>, e: Event<V>)
    requires Locked(s) && AllWatched(s) && Enabled(s, e)
    ensures AllWatched(Apply(s, e))
  {
    var s' := Apply(s, e);
    forall i | 0 <= i < |s'.pops| ensures Watched(s'.pops[i]) {
      if i < |s.pops| { assert Watched(s.pops[i]); }
    }
  }

  ghost predicate CloseFinished<V>(s: State<V>) {
    exists c :: 0 <= c < |s.closes| && s.closes[c] == CloseDone(true)
  }

  /** Once the closing call has broadcast, nobody waits any more. */
  ghost predicate ClosedWakesAll<V>(s: State<V>) {
    && (forall c :: 0 <= c < |s.closes| && (s.closes[c].CloseBroadcasting? || s.closes[c] == CloseDone(true)) ==> s.core.closed)
    && (CloseFinished(s) ==> forall i :: 0 <= i < |s.pops| ==> !s.pops[i].pc.Parked? && !s.pops[i].pc.Deciding?)
  }

  lemma PopStepClosed<V>(s: State<V>, e: Event<V>)
    requires ClosedWakesAll(s) && Enabled(s, e)
    requires e.NewPop? || e.CancelCtx? || e.FastPop? || e.CheckCtx? || e.Look? || e.Park? || e.WatcherFires?
    ensures ClosedWakesAll(Apply(s, e))
  {
    var s' := Apply(s, e);
    assert s'.closes == s.closes && s'.core.closed == s.core.closed;
    assert CloseFinished(s') ==> CloseFinished(s);
  }

  lemma OtherStepClosed<V>(s: State<V>, e: Event<V>)
    requires Locked(s) && ClosedWakesAll(s) && Enabled(s, e)
    requires e.NewPush? || e.NewClose? || e.PushFirst? || e.PushEnter? || e.PushBody? || e.CloseSwap? || e.CloseBroadcast?
    ensures ClosedWakesAll(Apply(s, e))
  {
    var s' := Apply(s, e);
    if CloseFinished(s') && !e.CloseBroadcast? {
      var c :| 0 <= c < |s'.closes| && s'.closes[c] == CloseDone(true);
      assert s.closes[c] == CloseDone(true);
    }
  }

  ghost predicate ReportedClosed<V>(s: State<V>) {
    exists i :: 0 <= i < |s.pops| && s.pops[i].pc == Returned(ClosedEmpty)
  }

  /** Once some Pop has reported closed-and-empty, the queue stays so. */
  ghost predicate DrainedForGood<V>(s: State<V>) {
    ReportedClosed(s) ==> s.core.closed && s.core.buf == [] && forall j :: 0 <= j < |s.pushes| ==> !s.pushes[j].PushInside?
  }

  lemma PopStepDrained<V>(s: State<V>, e: Event<V>)
    requires Locked(s) && DrainedForGood(s) && Enabled(s, e)
    requires e.NewPop? || e.CancelCtx? || e.FastPop? || e.CheckCtx? || e.Look? || e.Park? || e.WatcherFires? || e.CloseBroadcast?
    ensures DrainedForGood(Apply(s, e))
  {
    var s' := Apply(s, e);
    if ReportedClosed(s') {
      var i :| 0 <= i < |s'.pops| && s'.pops[i].pc == Returned(ClosedEmpty);
      if i < |s.pops| && s.pops[i].pc == Returned(ClosedEmpty) { assert ReportedClosed(s); }
    }
  }

  lemma OtherStepDrained<V>(s: State<V>, e: Event<V>)
    requires DrainedForGood(s) && Enabled(s, e)
    requires e.NewPush? || e.NewClose? || e.PushFirst? || e.PushEnter? || e.PushBody? || e.CloseSwap?
    ensures DrainedForGood(Apply(s, e))
  {
    var s' := Apply(s, e);
    if ReportedClosed(s') {
      var i :| 0 <= i < |s'.pops| && s'.pops[i].pc == Returned(ClosedEmpty);
      assert s.pops[i].pc == Returned(ClosedEmpty);
    }
  }

  // ---------------------------------------------------------------------------
  // Who gets which value

  ghost function HandedTo<V>(i: nat): Departure<V> -> bool {
    (d: Departure<V>) => d.Delivered? && d.call == i
  }

  /** A delivered value is the result of the Pop call it went to. */
  ghost predicate Received<V>(s: State<V>, d: Departure<V>) {
    d.Delivered? ==> d.call < |s.pops| && s.pops[d.call].pc == Returned(Got(d.v))
  }

  ghost predicate HasValue<V>(p: PopCall<V>) {
    p.pc.Returned? && p.pc.result.Got?
  }

  /** Every delivered value was returned by exactly one Pop, and every value a Pop returned was
      delivered exactly once. */
  ghost predicate Handed<V>(s: State<V>) {
    && (forall k :: 0 <= k < |s.departed| ==> Received(s, s.departed[k]))
    && (forall i :: 0 <= i < |s.pops| ==> Tally(HandedTo<V>(i), s.departed) == if HasValue(s.pops[i]) then 1 else 0)
  }

  /** Pop calls keep the value they returned, and no call gains one. */
  ghost predicate ResultsKept<V>(s: State<V>, s': State<V>) {
    && |s.pops| <= |s'.pops|
    && (forall i :: 0 <= i < |s.pops| ==>
          (HasValue(s.pops[i]) <==> HasValue(s'.pops[i])) && (HasValue(s.pops[i]) ==> s'.pops[i].pc == s.pops[i].pc))
    && (forall i :: |s.pops| <= i < |s'.pops| ==> !HasValue(s'.pops[i]))
  }

  lemma KeepHanded<V>(s: State<V>, s': State<V>)
    requires Handed(s) && ResultsKept(s, s') && s'.departed == s.departed
    ensures Handed(s')
  {
    forall k | 0 <= k < |s'.departed| ensures Received(s', s'.departed[k]) {
      assert Received(s, s.departed[k]);
    }
    forall i | 0 <= i < |s'.pops| ensures Tally(HandedTo<V>(i), s'.departed) == if HasValue(s'.pops[i]) then 1 else 0 {
      if i >= |s.pops| {
        forall k | 0 <= k < |s.departed| ensures !HandedTo<V>(i)(s.departed[k]) { assert Received(s, s.departed[k]); }
        TallyNone(HandedTo<V>(i), s.departed);
      }
    }
  }

  lemma TakeHands<V>(s: State<V>, i: nat)
    requires Handed(s) && i < |s.pops| && s.core.buf != [] && !HasValue(s.pops[i])
    ensures Handed(TakeInto(s, i))
  {
    var s' := TakeInto(s, i);
    var d := Delivered(s.core.buf[0], i);
    forall k | 0 <= k < |s'.departed| ensures Received(s', s'.departed[k]) {
      if k < |s.departed| { assert Received(s, s.departed[k]); }
    }
    forall x | 0 <= x < |s'.pops| ensures Tally(HandedTo<V>(x), s'.departed) == if HasValue(s'.pops[x]) then 1 else 0 {
      TallyAppend(HandedTo<V>(x), s.departed, d);
    }
  }

  lemma PushHands<V>(s: State<V>, j: nat, woken: Option<nat>)
    requires Handed(s) && Enabled(s, PushBody(j, woken))
    ensures Handed(DoPush(s, j, woken))
  {
    var s' := DoPush(s, j, woken);
    var before := s'.(departed := s.departed);
    KeepHanded(s, before);
    if s'.departed != s.departed {
      forall k | 0 <= k < |s'.departed| ensures Received(s', s'.departed[k]) {
        if k < |s.departed| { assert Received(before, before.departed[k]); }
      }
      forall x | 0 <= x < |s'.pops| ensures Tally(HandedTo<V>(x), s'.departed) == if HasValue(s'.pops[x]) then 1 else 0 {
        TallyAppend(HandedTo<V>(x), s.departed, Evicted(s.core.buf[0]));
      }
    }
  }

  lemma StepHands<V>(s: State<V>, e: Event<V>)
    requires Handed(s) && Enabled(s, e)
    ensures Handed(Apply(s, e))
  {
    if (e.FastPop? || e.Look?) && s.core.buf != [] { TakeHands(s, e.i); }
    else if e.PushBody? { PushHands(s, e.j, e.woken); }
    else { KeepHanded(s, Apply(s, e)); }
  }

  // ---------------------------------------------------------------------------
  // All runs

  ghost predicate Inv<V>(s: State<V>) {
    Conserved(s) && Locked(s) && NoLostWakeup(s) && AllWatched(s) && ClosedWakesAll(s) && DrainedForGood(s) && Handed(s)
  }

  lemma StepClosed<V>(s: State<V>, e: Event<V>)
    requires Locked(s) && ClosedWakesAll(s) && DrainedForGood(s) && Enabled(s, e)
    ensures ClosedWakesAll(Apply(s, e)) && DrainedForGood(Apply(s, e))
  {
    if e.NewPop? || e.CancelCtx? || e.FastPop? || e.CheckCtx? || e.Look? || e.Park? || e.WatcherFires? {
      PopStepClosed(s, e);
      PopStepDrained(s, e);
    } else {
      OtherStepClosed(s, e);
      if e.CloseBroadcast? { PopStepDrained(s, e); } else { OtherStepDrained(s, e); }
    }
  }

  lemma {:induction false} RunInv<V>(capacity: nat, policy: Policy, es: seq<Event<V>>)
    requires capacity > 0 && Possible(capacity, policy, es)
    ensures Inv(After(capacity, policy, es))
    ensures After(capacity, policy, es).core.capacity == capacity && After(capacity, policy, es).core.policy == policy
    decreases |es|
  {
    if es != [] {
      RunInv(capacity, policy, es[..|es|-1]);
      var s, e := After(capacity, policy, es[..|es|-1]), es[|es|-1];
      StepConserves(s, e);
      StepLocked(s, e);
      StepWakes(s, e);
      StepWatched(s, e);
      StepClosed(s, e);
      StepHands(s, e);
    }
  }

  /** No lost wake-up: if a Pop is parked although a value is buffered, another Pop has been woken
      for it and has not run yet. */
  lemma ParkedPopsAreCovered<V>(capacity: nat, policy: Policy, es: seq<Event<V>>) returns (i: nat)
    requires capacity > 0 && Possible(capacity, policy, es)
    requires SomeParked(After(capacity, policy, es).pops) && After(capacity, policy, es).core.buf != []
    ensures var s := After(capacity, policy, es); i < |s.pops| && s.pops[i].pc.Woken?
    ensures var s := After(capacity, policy, es); |s.core.buf| <= Tally(IsWoken<V>(), s.pops)
  {
    RunInv(capacity, policy, es);
    i := TallyWitness(IsWoken<V>(), After(capacity, policy, es).pops);
  }

  /** Once Close has finished no Pop is parked; and a Pop whose context has ended is parked only
      while its watcher has yet to fire. */
  lemma CloseAndCancelRelease<V>(capacity: nat, policy: Policy, es: seq<Event<V>>, i: nat)
    requires capacity > 0 && Possible(capacity, policy, es) && i < |After(capacity, policy, es).pops|
    requires After(capacity, policy, es).pops[i].pc.Parked?
    ensures !CloseFinished(After(capacity, policy, es))
    ensures After(capacity, policy, es).pops[i].watching
  {
    RunInv(capacity, policy, es);
    assert Watched(After(capacity, policy, es).pops[i]);
  }

  /** Length, order and accounting: the accepted values are the delivered and evicted ones in order,
      then the buffer; under DropNewest nothing is evicted, under DropOldest nothing is rejected. */
  lemma NothingLostOrReordered<V>(capacity: nat, policy: Policy, es: seq<Event<V>>)
    requires capacity > 0 && Possible(capacity, policy, es)
    ensures var s := After(capacity, policy, es);
      && |s.core.buf| <= capacity
      && s.accepted == Values(s.departed) + s.core.buf
      && s.core.dropped == s.rejected + Tally(IsEviction<V>(), s.departed)
      && (policy != DropOldest ==> forall k :: 0 <= k < |s.departed| ==> s.departed[k].Delivered?)
      && (policy == DropOldest ==> s.rejected == 0)
      && Handed(s)
  {
    RunInv(capacity, policy, es);
    var s := After(capacity, policy, es);
    if policy != DropOldest {
      forall k | 0 <= k < |s.departed| ensures s.departed[k].Delivered? {
        if s.departed[k].Evicted? { TallyPositive(IsEviction<V>(), s.departed, k); }
      }
    }
  }

  lemma StepReportStays<V>(s: State<V>, e: Event<V>)
    requires Inv(s) && ReportedClosed(s) && Enabled(s, e)
    ensures ReportedClosed(Apply(s, e)) && Apply(s, e).accepted == s.accepted
  {
    var i :| 0 <= i < |s.pops| && s.pops[i].pc == Returned(ClosedEmpty);
    assert Apply(s, e).pops[i].pc == Returned(ClosedEmpty);
  }

  lemma ReportStays<V>(capacity: nat, policy: Policy, es: seq<Event<V>>, e: Event<V>, all: seq<Event<V>>)
    requires capacity > 0 && all == es + [e] && Possible(capacity, policy, all)
    requires Possible(capacity, policy, es) && ReportedClosed(After(capacity, policy, es))
    ensures ReportedClosed(After(capacity, policy, all))
    ensures After(capacity, policy, all).accepted == After(capacity, policy, es).accepted
  {
    assert all[..|all|-1] == es;
    RunInv(capacity, policy, es);
    StepReportStays(After(capacity, policy, es), e);
  }

  lemma PrefixPossible<V>(capacity: nat, policy: Policy, es: seq<Event<V>>, e: Event<V>, all: seq<Event<V>>)
    requires capacity > 0 && all == es + [e] && Possible(capacity, policy, all)
    ensures Possible(capacity, policy, es)
  {
    assert all[..|all|-1] == es;
  }

  lemma ReportedMeansDrained<V>(capacity: nat, policy: Policy, es: seq<Event<V>>)
    requires capacity > 0 && Possible(capacity, policy, es) && ReportedClosed(After(capacity, policy, es))
    ensures After(capacity, policy, es).accepted == Values(After(capacity, policy, es).departed)
  {
    RunInv(capacity, policy, es);
    var s := After(capacity, policy, es);
    assert s.accepted == Values(s.departed) + s.core.buf;
  }

  /** After some Pop has reported closed-and-empty, no continuation accepts anything, and everything
      that was ever accepted has left the queue. */
  lemma {:induction false} ClosedEmptyIsFinal<V>(capacity: nat, policy: Policy, es: seq<Event<V>>, more: seq<Event<V>>)
    requires capacity > 0 && Possible(capacity, policy, es) && ReportedClosed(After(capacity, policy, es))
    requires Possible(capacity, policy, es + more)
    ensures ReportedClosed(After(capacity, policy, es + more))
    ensures After(capacity, policy, es + more).accepted == After(capacity, policy, es).accepted
    ensures After(capacity, policy, es + more).accepted == Values(After(capacity, policy, es + more).departed)
    decreases |more|
  {
    if more == [] {
      assert es + more == es;
    } else {
      var n := |more| - 1;
      var shorter := es + more[..n];
      assert es + more == shorter + [more[n]];
      PrefixPossible(capacity, policy, shorter, more[n], es + more);
      ClosedEmptyIsFinal(capacity, policy, es, more[..n]);
      ReportStays(capacity, policy, shorter, more[n], es + more);
    }
    ReportedMeansDrained(capacity, policy, es + more);
  }
}
