/** The methods of the bounded queue (internal/bounded/queue.go) as code that changes its fields:
    each call that is not interrupted does to the fields and to the waiting Pops exactly what its
    steps do in the concurrent model. */
module QueueCalls {
  import opened Common
  import opened BoundedQueue
  import opened QueueRuns

  // ---------------------------------------------------------------------------
  // Several steps in a row

  ghost predicate CanReplay<V>(s: State<V>, es: seq<Event<V>>)
    decreases |es|
  {
    es == [] || (Enabled(s, es[0]) && CanReplay(Apply(s, es[0]), es[1..]))
  }

  ghost function Replay<V>(s: State<V>, es: seq<Event<V>>): State<V>
    requires CanReplay(s, es)
    decreases |es|
  {
    if es == [] then s else Replay(Apply(s, es[0]), es[1..])
  }

  lemma ReplayOne<V>(s: State<V>, e: Event<V>, rest: seq<Event<V>>)
    requires Enabled(s, e) && CanReplay(Apply(s, e), rest)
    ensures CanReplay(s, [e] + rest) && Replay(s, [e] + rest) == Replay(Apply(s, e), rest)
  {
    assert ([e] + rest)[1..] == rest;
  }

  /** The waiter that a signal wakes, if there is one to wake. */
  ghost predicate Picks<V>(pops: seq<PopCall<V>>, woken: Option<nat>) {
    if exists i :: 0 <= i < |pops| && IsParked(pops[i])
    then woken.Some? && woken.value < |pops| && IsParked(pops[woken.value])
    else woken.None?
  }

  /** A new Push call, run to its end. */
  ghost function PushEvents<V>(s: State<V>, v: V, woken: Option<nat>): seq<Event<V>> {
    var j := |s.pushes|;
    if s.core.closed then [NewPush(v), PushFirst(j)]
    else [NewPush(v), PushFirst(j), PushEnter(j), PushBody(j, if Offers(s.core, v) then woken else None)]
  }

  predicate Offers<V>(c: Core<V>, v: V) {
    c.capacity > 0 && Offer(c, v).1
  }

  /** A new Close call, run to its end. */
  ghost function CloseEvents<V>(s: State<V>): seq<Event<V>> {
    var c := |s.closes|;
    if s.core.closed then [NewClose, CloseSwap(c)] else [NewClose, CloseSwap(c), CloseBroadcast(c)]
  }

  lemma ClosedPush<V>(s: State<V>, v: V, woken: Option<nat>)
    requires s.core.closed
    ensures CanReplay(s, PushEvents(s, v, woken))
    ensures Replay(s, PushEvents(s, v, woken)) == s.(pushes := s.pushes + [PushDone(false)])
  {
    var j := |s.pushes|;
    var s1 := Apply(s, NewPush(v));
    ReplayOne(s1, PushFirst(j), []);
    ReplayOne(s, NewPush(v), [PushFirst(j)] + []);
    assert [NewPush(v)] + ([PushFirst(j)] + []) == PushEvents(s, v, woken);
    assert Apply(s1, PushFirst(j)).pushes == s.pushes + [PushDone(false)];
  }

  /** The state in which the body of an open Push runs. */
  ghost function Inside<V>(s: State<V>, v: V): State<V> {
    s.(pushes := s.pushes + [PushInside(v)], lock := PushHolds(|s.pushes|))
  }

  lemma PushEnters<V>(s: State<V>, v: V, rest: seq<Event<V>>)
    requires !s.core.closed && s.lock.Free? && CanReplay(Inside(s, v), rest)
    ensures var es := [NewPush(v)] + ([PushFirst(|s.pushes|)] + ([PushEnter(|s.pushes|)] + rest));
      CanReplay(s, es) && Replay(s, es) == Replay(Inside(s, v), rest)
  {
    var j := |s.pushes|;
    var s1 := Apply(s, NewPush(v));
    var s2 := Apply(s1, PushFirst(j));
    assert Apply(s2, PushEnter(j)).pushes == Inside(s, v).pushes;
    assert Apply(s2, PushEnter(j)) == Inside(s, v);
    ReplayOne(s2, PushEnter(j), rest);
    ReplayOne(s1, PushFirst(j), [PushEnter(j)] + rest);
    ReplayOne(s, NewPush(v), [PushFirst(j)] + ([PushEnter(j)] + rest));
  }

  lemma OpenPush<V>(s: State<V>, v: V, woken: Option<nat>)
    requires WellFormed(s.core) && !s.core.closed && s.lock.Free? && Picks(s.pops, woken)
    ensures CanReplay(s, PushEvents(s, v, woken))
    ensures Replay(s, PushEvents(s, v, woken)) == DoPush(Inside(s, v), |s.pushes|, if Offers(s.core, v) then woken else None)
  {
    var j, picked := |s.pushes|, if Offers(s.core, v) then woken else None;
    ReplayOne(Inside(s, v), PushBody(j, picked), []);
    PushEnters(s, v, [PushBody(j, picked)] + []);
    assert [NewPush(v)] + ([PushFirst(j)] + ([PushEnter(j)] + ([PushBody(j, picked)] + []))) == PushEvents(s, v, woken);
  }

  lemma ClosedClose<V>(s: State<V>)
    requires s.lock.Free? && s.core.closed
    ensures CanReplay(s, CloseEvents(s)) && Replay(s, CloseEvents(s)) == s.(closes := s.closes + [CloseDone(false)])
  {
    var c := |s.closes|;
    var s1 := Apply(s, NewClose);
    assert Apply(s1, CloseSwap(c)).closes == s.closes + [CloseDone(false)];
    ReplayOne(s1, CloseSwap(c), []);
    ReplayOne(s, NewClose, [CloseSwap(c)] + []);
    assert [NewClose] + ([CloseSwap(c)] + []) == CloseEvents(s);
  }

  /** What the Close call that comes first leaves behind. */
  ghost function Closed<V>(s: State<V>): State<V> {
    s.(closes := s.closes + [CloseDone(true)], core := s.core.(closed := true), pops := WakeAll(s.pops))
  }

  lemma OpenClose<V>(s: State<V>)
    requires s.lock.Free? && !s.core.closed
    ensures CanReplay(s, CloseEvents(s)) && Replay(s, CloseEvents(s)) == Closed(s)
  {
    var c := |s.closes|;
    var s1 := Apply(s, NewClose);
    var s2 := Apply(s1, CloseSwap(c));
    assert Apply(s2, CloseBroadcast(c)).closes == s.closes + [CloseDone(true)];
    ReplayOne(s2, CloseBroadcast(c), []);
    ReplayOne(s1, CloseSwap(c), [CloseBroadcast(c)] + []);
    ReplayOne(s, NewClose, [CloseSwap(c)] + ([CloseBroadcast(c)] + []));
    assert [NewClose] + ([CloseSwap(c)] + ([CloseBroadcast(c)] + [])) == CloseEvents(s);
  }

  // ---------------------------------------------------------------------------
  // The object

  class Queue<V> {
    var buf: seq<V>
    const capacity: nat
    const policy: Policy
    var closed: bool
    var dropped: nat
    var pops: seq<PopCall<V>>     // the Pop calls that the condition variable may wake

    ghost predicate Valid()
      reads this
    {
      WellFormed(Contents())
    }

    ghost function Contents(): Core<V>
      reads this
    {
      Core(buf, capacity, policy, closed, dropped)
    }

    /** The object is in the state `s` of the concurrent model, and nobody holds the mutex. */
    ghost predicate In(s: State<V>)
      reads this
    {
      s.core == Contents() && s.pops == pops && s.lock.Free?
    }

    constructor (capacity: nat, policy: Policy)
      requires capacity > 0
      ensures Valid() && In(Init(capacity, policy))
    {
      this.capacity, this.policy := capacity, policy;
      buf, closed, dropped, pops := [], false, 0, [];
    }

    /** `cond.Signal()`. */
    method Signal(woken: Option<nat>)
      requires Picks(pops, woken)
      modifies this`pops
      ensures pops == if woken.Some? then old(pops)[woken.value := Wake(old(pops)[woken.value])] else old(pops)
    {
      if woken.Some? { pops := pops[woken.value := pops[woken.value].(pc := Woken)]; }
    }

    /** `cond.Broadcast()`. */
    method Broadcast()
      modifies this`pops
      ensures pops == WakeAll(old(pops))
    {
      ghost var were := pops;
      for i := 0 to |pops|
        invariant |pops| == |were|
        invariant forall k :: 0 <= k < i ==> pops[k] == Wake(were[k])
        invariant forall k :: i <= k < |pops| ==> pops[k] == were[k]
      {
        if pops[i].pc.Parked? { pops := pops[i := pops[i].(pc := Woken)]; }
      }
    }

    /** Push does to the queue and its waiters what its steps do, and returns their result. */
    method Push(v: V, woken: Option<nat>, ghost s: State<V>) returns (ok: bool, ghost s': State<V>)
      requires Valid() && In(s) && Picks(pops, woken)
      modifies this
      ensures CanReplay(s, PushEvents(s, v, woken)) && s' == Replay(s, PushEvents(s, v, woken))
      ensures Valid() && In(s') && s'.pushes == s.pushes + [PushDone(ok)]
      ensures ok <==> !old(closed) && (|old(buf)| < capacity || policy == DropOldest)
      ensures ok && |old(buf)| < capacity ==> buf == old(buf) + [v] && dropped == old(dropped)
      ensures ok && |old(buf)| == capacity ==> buf == old(buf)[1..] + [v] && dropped == old(dropped) + 1
      ensures !ok ==> buf == old(buf) && dropped == old(dropped) + if old(closed) then 0 else 1
      ensures closed == old(closed)
    {
      if closed {
        ClosedPush(s, v, woken);
        return false, Replay(s, PushEvents(s, v, woken));
      }
      OpenPush(s, v, woken);
      s' := Replay(s, PushEvents(s, v, woken));
      if |buf| < capacity {
        buf := buf + [v];
        Signal(woken);
        return true, s';
      }
      match policy
      case DropOldest =>
        buf := buf[1..] + [v];
        dropped := dropped + 1;
        Signal(woken);
        ok := true;
      case _ =>
        dropped := dropped + 1;
        ok := false;
    }

    /** The fast path of Pop: the step `FastPop` of call `i`. */
    method PopFast(i: nat, ghost s: State<V>) returns (result: Option<PopResult<V>>, ghost s': State<V>)
      requires Valid() && In(s) && i < |pops| && pops[i].pc.Fast?
      modifies this
      ensures Enabled(s, FastPop(i)) && s' == Apply(s, FastPop(i)) && Valid() && In(s')
      ensures s'.pops[i].pc == match result case Some(r) => Returned(r) case None => Between
      ensures old(buf) != [] ==> result == Some(Got(old(buf)[0])) && buf == old(buf)[1..]
      ensures old(buf) == [] ==> result == (if old(closed) then Some(ClosedEmpty) else None) && buf == []
    {
      s' := Apply(s, FastPop(i));
      if |buf| > 0 {
        result := Some(Got(buf[0]));
        buf := buf[1..];
      } else if closed {
        result := Some(ClosedEmpty);
      } else {
        result := None;
      }
      pops := pops[i := if result.Some? then pops[i].(pc := Returned(result.value), watching := false)
                        else pops[i].(pc := Between)];
    }

    /** One turn of Pop's wait loop: the step `Look` of call `i`, and the wait that follows if there is
        nothing to return. */
    method PopTurn(i: nat, ghost s: State<V>) returns (result: Option<PopResult<V>>, ghost s': State<V>)
      requires Valid() && In(s) && i < |pops| && (pops[i].pc.Slow? || pops[i].pc.Woken?)
      modifies this
      ensures Enabled(s, Look(i)) && Valid() && In(s')
      ensures result.Some? ==> s' == Apply(s, Look(i)) && s'.pops[i].pc == Returned(result.value)
      ensures result.None? ==> Enabled(Apply(s, Look(i)), Park(i)) && s' == Apply(Apply(s, Look(i)), Park(i))
      ensures old(buf) != [] ==> result == Some(Got(old(buf)[0])) && buf == old(buf)[1..]
      ensures old(buf) == [] && old(closed) ==> result == Some(ClosedEmpty) && buf == []
      ensures old(buf) == [] && !old(closed) ==> result == (if old(pops[i].ctxDone) then Some(CtxDone) else None) && buf == []
    {
      s' := Apply(s, Look(i));
      if |buf| > 0 {
        result := Some(Got(buf[0]));
        buf := buf[1..];
      } else if closed {
        result := Some(ClosedEmpty);
      } else if pops[i].ctxDone {
        result := Some(CtxDone);
      } else {
        result := None;
        s' := Apply(s', Park(i));
      }
      pops := pops[i := if result.Some? then pops[i].(pc := Returned(result.value), watching := false)
                        else pops[i].(pc := Parked)];
    }

    /** Close does what its steps do: only the first call has any effect, and it wakes every waiter. */
    method Close(ghost s: State<V>) returns (ghost s': State<V>)
      requires Valid() && In(s)
      modifies this
      ensures CanReplay(s, CloseEvents(s)) && s' == Replay(s, CloseEvents(s))
      ensures Valid() && In(s') && closed
      ensures s'.closes == s.closes + [CloseDone(!old(closed))]
    {
      if closed {
        ClosedClose(s);
        return Replay(s, CloseEvents(s));
      }
      OpenClose(s);
      s' := Replay(s, CloseEvents(s));
      closed := true;
      Broadcast();
    }
  }
}
