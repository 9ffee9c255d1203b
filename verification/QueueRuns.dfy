/** Concurrent use of the bounded queue: any number of Push, Pop and Close calls, with the mutex,
    the condition variable and the lock-free closed flag as separate steps. */
module QueueRuns {
  import opened Common
  import opened BoundedQueue

  datatype PopResult<V> = Got(v: V) | ClosedEmpty | CtxDone

  datatype PopPc<V> =
    | Fast                      // before the fast path
    | Between                   // fast path left, context not yet checked
    | Slow                      // before the first turn of the wait loop
    | Deciding                  // in the loop, holding the mutex, about to wait
    | Parked                    // inside cond.Wait, not signalled
    | Woken                     // signalled, mutex not yet reacquired
    | Returned(result: PopResult<V>)

  /** `watching` says that the context watcher of the call is still waiting. */
  datatype PopCall<V> = PopCall(pc: PopPc<V>, ctxDone: bool, watching: bool)

  datatype PushCall<V> =
    | PushStart(v: V)           // before the first look at the closed flag
    | PushLocking(v: V)
    | PushInside(v: V)          // holding the mutex, closed flag seen false
    | PushDone(ok: bool)

  datatype CloseCall = CloseStart | CloseBroadcasting | CloseDone(won: bool)

  datatype Holder = Free | PopHolds(i: nat) | PushHolds(j: nat)

  /** A value that left the buffer: handed to a Pop call, or evicted. */
  datatype Departure<V> = Delivered(v: V, call: nat) | Evicted(v: V)

  datatype State<V> = State(
    core: Core<V>,
    lock: Holder,
    pops: seq<PopCall<V>>,
    pushes: seq<PushCall<V>>,
    closes: seq<CloseCall>,
    accepted: seq<V>,           // history: accepted values in order
    departed: seq<Departure<V>>,
    rejected: nat)              // history: rejections because the buffer was full

  function Init<V>(capacity: nat, policy: Policy): State<V> {
    State(Core([], capacity, policy, false, 0), Free, [], [], [], [], [], 0)
  }

  // ---------------------------------------------------------------------------
  // Steps

  datatype Event<V> =
    | NewPop | NewPush(v: V) | NewClose
    | CancelCtx(i: nat)
    | FastPop(i: nat) | CheckCtx(i: nat) | Look(i: nat) | Park(i: nat)
    | WatcherFires(i: nat)
    | PushFirst(j: nat) | PushEnter(j: nat)
    | PushBody(j: nat, woken: Option<nat>)     // `woken` is the waiter that the signal picks
    | CloseSwap(c: nat) | CloseBroadcast(c: nat)

  ghost predicate IsParked<V>(p: PopCall<V>) {
    p.pc.Parked?
  }

  ghost predicate Enabled<V>(s: State<V>, e: Event<V>) {
    match e
    case NewPop => true
    case NewPush(_) => true
    case NewClose => true
    case CancelCtx(i) => i < |s.pops|
    case FastPop(i) => i < |s.pops| && s.pops[i].pc.Fast? && s.lock.Free?
    case CheckCtx(i) => i < |s.pops| && s.pops[i].pc.Between?
    case Look(i) => i < |s.pops| && (s.pops[i].pc.Slow? || s.pops[i].pc.Woken?) && s.lock.Free?
    case Park(i) => i < |s.pops| && s.pops[i].pc.Deciding?
    case WatcherFires(i) => i < |s.pops| && s.pops[i].watching && s.pops[i].ctxDone && s.lock.Free?
    case PushFirst(j) => j < |s.pushes| && s.pushes[j].PushStart?
    case PushEnter(j) => j < |s.pushes| && s.pushes[j].PushLocking? && s.lock.Free?
    case PushBody(j, woken) =>
      && j < |s.pushes| && s.pushes[j].PushInside? && s.core.capacity > 0
      && (if Offer(s.core, s.pushes[j].v).1 && (exists i :: 0 <= i < |s.pops| && IsParked(s.pops[i]))
          then woken.Some? && woken.value < |s.pops| && IsParked(s.pops[woken.value])
          else woken.None?)
    case CloseSwap(c) => c < |s.closes| && s.closes[c].CloseStart?
    case CloseBroadcast(c) => c < |s.closes| && s.closes[c].CloseBroadcasting? && s.lock.Free?
  }

  function SetPop<V>(s: State<V>, i: nat, pc: PopPc<V>): State<V>
    requires i < |s.pops|
  {
    s.(pops := s.pops[i := s.pops[i].(pc := pc)])
  }

  /** The call returns, and its context watcher with it. */
  function Return<V>(s: State<V>, i: nat, result: PopResult<V>): State<V>
    requires i < |s.pops|
  {
    s.(pops := s.pops[i := s.pops[i].(pc := Returned(result), watching := false)])
  }

  function Wake<V>(p: PopCall<V>): PopCall<V> {
    if p.pc.Parked? then p.(pc := Woken) else p
  }

  /** `cond.Broadcast()`. */
  function WakeAll<V>(pops: seq<PopCall<V>>): (r: seq<PopCall<V>>)
    ensures |r| == |pops| && forall i :: 0 <= i < |pops| ==> r[i] == Wake(pops[i])
  {
    if pops == [] then [] else WakeAll(pops[..|pops|-1]) + [Wake(pops[|pops|-1])]
  }

  /** Taking the head of a non-empty buffer and returning it. */
  function TakeInto<V>(s: State<V>, i: nat): State<V>
    requires i < |s.pops| && s.core.buf != []
  {
    var v := s.core.buf[0];
    Return(s, i, Got(v)).(core := Take(s.core).0, departed := s.departed + [Delivered(v, i)])
  }

  ghost function Apply<V>(s: State<V>, e: Event<V>): State<V>
    requires Enabled(s, e)
  {
    match e
    case NewPop => s.(pops := s.pops + [PopCall(Fast, false, false)])
    case NewPush(v) => s.(pushes := s.pushes + [PushStart(v)])
    case NewClose => s.(closes := s.closes + [CloseStart])
    case CancelCtx(i) => s.(pops := s.pops[i := s.pops[i].(ctxDone := true)])
    case FastPop(i) =>
      if s.core.buf != [] then TakeInto(s, i)
      else if s.core.closed then Return(s, i, ClosedEmpty)
      else SetPop(s, i, Between)
    case CheckCtx(i) =>
      if s.pops[i].ctxDone then Return(s, i, CtxDone)
      else s.(pops := s.pops[i := s.pops[i].(pc := Slow, watching := true)])
    case Look(i) =>
      if s.core.buf != [] then TakeInto(s, i)
      else if s.core.closed then Return(s, i, ClosedEmpty)
      else if s.pops[i].ctxDone then Return(s, i, CtxDone)
      else SetPop(s, i, Deciding).(lock := PopHolds(i))
    case Park(i) => SetPop(s, i, Parked).(lock := Free)
    case WatcherFires(i) => s.(pops := WakeAll(s.pops[i := s.pops[i].(watching := false)]))
    case PushFirst(j) =>
      s.(pushes := s.pushes[j := if s.core.closed then PushDone(false) else PushLocking(s.pushes[j].v)])
    case PushEnter(j) =>
      if s.core.closed then s.(pushes := s.pushes[j := PushDone(false)])
      else s.(pushes := s.pushes[j := PushInside(s.pushes[j].v)], lock := PushHolds(j))
    case PushBody(j, woken) => DoPush(s, j, woken)
    case CloseSwap(c) =>
      if s.core.closed then s.(closes := s.closes[c := CloseDone(false)])
      else s.(closes := s.closes[c := CloseBroadcasting], core := s.core.(closed := true))
    case CloseBroadcast(c) =>
      s.(closes := s.closes[c := CloseDone(true)], pops := WakeAll(s.pops))
  }

  function DoPush<V>(s: State<V>, j: nat, woken: Option<nat>): State<V>
    requires j < |s.pushes| && s.pushes[j].PushInside? && s.core.capacity > 0
    requires woken.Some? ==> woken.value < |s.pops|
  {
    var v := s.pushes[j].v;
    var (core', ok) := Offer(s.core, v);
    var evicts := ok && |s.core.buf| >= s.core.capacity && s.core.buf != [];
    s.(core := core', lock := Free, pushes := s.pushes[j := PushDone(ok)],
       pops := if woken.Some? then s.pops[woken.value := Wake(s.pops[woken.value])] else s.pops,
       accepted := if ok then s.accepted + [v] else s.accepted,
       departed := if evicts then s.departed + [Evicted(s.core.buf[0])] else s.departed,
       rejected := if ok then s.rejected else s.rejected + 1)
  }

  ghost predicate Possible<V>(capacity: nat, policy: Policy, es: seq<Event<V>>)
    decreases |es|, 0
  {
    es == [] || (Possible(capacity, policy, es[..|es|-1]) && Enabled(After(capacity, policy, es[..|es|-1]), es[|es|-1]))
  }

  ghost function After<V>(capacity: nat, policy: Policy, es: seq<Event<V>>): State<V>
    requires Possible(capacity, policy, es)
    decreases |es|, 1
  {
    if es == [] then Init(capacity, policy) else Apply(After(capacity, policy, es[..|es|-1]), es[|es|-1])
  }

  // ---------------------------------------------------------------------------
  // The buffer

  function Values<V>(d: seq<Departure<V>>): seq<V> {
    if d == [] then [] else Values(d[..|d|-1]) + [d[|d|-1].v]
  }

  ghost function IsEviction<V>(): Departure<V> -> bool {
    (d: Departure<V>) => d.Evicted?
  }

  /** Accepted values are those that left, in order, followed by the buffer; drops are counted. */
  ghost predicate Conserved<V>(s: State<V>) {
    && WellFormed(s.core)
    && s.accepted == Values(s.departed) + s.core.buf
    && s.core.dropped == s.rejected + Tally(IsEviction(), s.departed)
    && (s.core.policy != DropOldest ==> Tally(IsEviction(), s.departed) == 0)
    && (s.core.policy == DropOldest ==> s.rejected == 0)
  }
}
