/** What the results of Push and Pop (internal/bounded/queue.go) mean in every concurrent use: each
    result is decided at one step of the call, by the buffer, the closed flag and the context as they
    are at that step. */
module QueueOutcomes {
  import opened Common
  import opened BoundedQueue
  import opened QueueRuns
  import opened QueueTheorems

  // ---------------------------------------------------------------------------
  // Push

  ghost predicate RefusesIn<V>(capacity: nat, policy: Policy, s: State<V>, e: Event<V>, j: nat) {
    || ((e == PushFirst(j) || e == PushEnter(j)) && s.core.closed)
    || (e.PushBody? && e.j == j && |s.core.buf| == capacity && policy != DropOldest)
  }

  ghost predicate AcceptsIn<V>(capacity: nat, policy: Policy, s: State<V>, e: Event<V>, j: nat) {
    e.PushBody? && e.j == j && (|s.core.buf| < capacity || policy == DropOldest)
  }

  ghost predicate RefusedAt<V>(capacity: nat, policy: Policy, es: seq<Event<V>>, i: nat, j: nat) {
    i < |es| && Possible(capacity, policy, es[..i]) && RefusesIn(capacity, policy, After(capacity, policy, es[..i]), es[i], j)
  }

  ghost predicate AcceptedAt<V>(capacity: nat, policy: Policy, es: seq<Event<V>>, i: nat, j: nat) {
    i < |es| && Possible(capacity, policy, es[..i]) && AcceptsIn(capacity, policy, After(capacity, policy, es[..i]), es[i], j)
  }

  ghost predicate PushIs<V>(s: State<V>, j: nat, ok: bool) {
    j < |s.pushes| && s.pushes[j] == PushDone(ok)
  }

  ghost predicate EverRefused<V>(capacity: nat, policy: Policy, es: seq<Event<V>>, j: nat) {
    exists i: nat :: RefusedAt(capacity, policy, es, i, j)
  }

  ghost predicate EverAccepted<V>(capacity: nat, policy: Policy, es: seq<Event<V>>, j: nat) {
    exists i: nat :: AcceptedAt(capacity, policy, es, i, j)
  }

  lemma RefusedEarlier<V>(capacity: nat, policy: Policy, es: seq<Event<V>>, before: seq<Event<V>>, i: nat, j: nat)
    requires before <= es && i < |before|
    ensures RefusedAt(capacity, policy, es, i, j) <==> RefusedAt(capacity, policy, before, i, j)
  {
    assert before[..i] == es[..i];
  }

  lemma RefusedByLast<V>(capacity: nat, policy: Policy, es: seq<Event<V>>, n: nat, j: nat, last: bool)
    requires |es| == n + 1 && last == RefusedAt(capacity, policy, es, n, j)
    ensures EverRefused(capacity, policy, es, j) <==> EverRefused(capacity, policy, es[..n], j) || last
  {
    if i: nat :| RefusedAt(capacity, policy, es, i, j) {
      if i < n { RefusedEarlier(capacity, policy, es, es[..n], i, j); }
    }
    if i: nat :| RefusedAt(capacity, policy, es[..n], i, j) {
      RefusedEarlier(capacity, policy, es, es[..n], i, j);
    }
  }

  lemma AcceptedEarlier<V>(capacity: nat, policy: Policy, es: seq<Event<V>>, before: seq<Event<V>>, i: nat, j: nat)
    requires before <= es && i < |before|
    ensures AcceptedAt(capacity, policy, es, i, j) <==> AcceptedAt(capacity, policy, before, i, j)
  {
    assert before[..i] == es[..i];
  }

  lemma AcceptedByLast<V>(capacity: nat, policy: Policy, es: seq<Event<V>>, n: nat, j: nat, last: bool)
    requires |es| == n + 1 && last == AcceptedAt(capacity, policy, es, n, j)
    ensures EverAccepted(capacity, policy, es, j) <==> EverAccepted(capacity, policy, es[..n], j) || last
  {
    if i: nat :| AcceptedAt(capacity, policy, es, i, j) {
      if i < n { AcceptedEarlier(capacity, policy, es, es[..n], i, j); }
    }
    if i: nat :| AcceptedAt(capacity, policy, es[..n], i, j) {
      AcceptedEarlier(capacity, policy, es, es[..n], i, j);
    }
  }

  lemma StepDecidesPush<V>(capacity: nat, policy: Policy, s: State<V>, e: Event<V>, j: nat)
    requires WellFormed(s.core) && s.core.capacity == capacity && s.core.policy == policy && Enabled(s, e)
    ensures PushIs(Apply(s, e), j, false) <==> PushIs(s, j, false) || RefusesIn(capacity, policy, s, e, j)
    ensures PushIs(Apply(s, e), j, true) <==> PushIs(s, j, true) || AcceptsIn(capacity, policy, s, e, j)
  {
  }

  /** Push returns false exactly if it found the queue closed, or found it full under a policy other
      than DropOldest; it returns true exactly if it found room or DropOldest. */
  lemma {:induction false} PushMeans<V>(capacity: nat, policy: Policy, es: seq<Event<V>>, j: nat)
    requires capacity > 0 && Possible(capacity, policy, es)
    ensures PushIs(After(capacity, policy, es), j, false) <==> EverRefused(capacity, policy, es, j)
    ensures PushIs(After(capacity, policy, es), j, true) <==> EverAccepted(capacity, policy, es, j)
    decreases |es|
  {
    if es != [] {
      var n := |es| - 1;
      PushMeans(capacity, policy, es[..n], j);
      RunInv(capacity, policy, es[..n]);
      StepDecidesPush(capacity, policy, After(capacity, policy, es[..n]), es[n], j);
      RefusedByLast(capacity, policy, es, n, j, RefusesIn(capacity, policy, After(capacity, policy, es[..n]), es[n], j));
      AcceptedByLast(capacity, policy, es, n, j, AcceptsIn(capacity, policy, After(capacity, policy, es[..n]), es[n], j));
    }
  }

  /** What the deciding step does to the queue: an accepted value goes to the end, evicting the head
      if and only if the buffer was full; a refusal changes no contents, and is counted if the queue
      was open. */
  lemma PushChanges<V>(capacity: nat, policy: Policy, es: seq<Event<V>>, j: nat, woken: Option<nat>, s: State<V>, s': State<V>)
    requires capacity > 0 && Possible(capacity, policy, es) && s == After(capacity, policy, es)
    requires Enabled(s, PushBody(j, woken)) && s' == Apply(s, PushBody(j, woken))
    ensures |s.core.buf| < capacity ==>
      && s'.pushes[j] == PushDone(true) && s'.core.buf == s.core.buf + [s.pushes[j].v]
      && s'.core.dropped == s.core.dropped && s'.departed == s.departed
    ensures |s.core.buf| == capacity && policy == DropOldest ==>
      && s'.pushes[j] == PushDone(true) && s'.core.buf == s.core.buf[1..] + [s.pushes[j].v]
      && s'.core.dropped == s.core.dropped + 1 && s'.departed == s.departed + [Evicted(s.core.buf[0])]
    ensures |s.core.buf| == capacity && policy != DropOldest ==>
      && s'.pushes[j] == PushDone(false) && s'.core.buf == s.core.buf
      && s'.core.dropped == s.core.dropped + 1 && s'.departed == s.departed
    ensures |s.core.buf| <= capacity
  {
    RunInv(capacity, policy, es);
  }

  // ---------------------------------------------------------------------------
  // Pop

  ghost predicate ReturnsIn<V>(s: State<V>, e: Event<V>, k: nat, r: PopResult<V>) {
    match r
    case Got(v) => (e == FastPop(k) || e == Look(k)) && s.core.buf != [] && v == s.core.buf[0]
    case ClosedEmpty => (e == FastPop(k) || e == Look(k)) && s.core.buf == [] && s.core.closed
    case CtxDone =>
      && k < |s.pops| && s.pops[k].ctxDone
      && (e == CheckCtx(k) || (e == Look(k) && s.core.buf == [] && !s.core.closed))
  }

  ghost predicate ReturnedAt<V>(capacity: nat, policy: Policy, es: seq<Event<V>>, i: nat, k: nat, r: PopResult<V>) {
    i < |es| && Possible(capacity, policy, es[..i]) && ReturnsIn(After(capacity, policy, es[..i]), es[i], k, r)
  }

  ghost predicate PopIs<V>(s: State<V>, k: nat, r: PopResult<V>) {
    k < |s.pops| && s.pops[k].pc == Returned(r)
  }

  ghost predicate EverReturned<V>(capacity: nat, policy: Policy, es: seq<Event<V>>, k: nat, r: PopResult<V>) {
    exists i: nat :: ReturnedAt(capacity, policy, es, i, k, r)
  }

  lemma ReturnedEarlier<V>(capacity: nat, policy: Policy, es: seq<Event<V>>, before: seq<Event<V>>, i: nat, k: nat, r: PopResult<V>)
    requires before <= es && i < |before|
    ensures ReturnedAt(capacity, policy, es, i, k, r) <==> ReturnedAt(capacity, policy, before, i, k, r)
  {
    assert before[..i] == es[..i];
  }

  lemma ReturnedByLast<V>(capacity: nat, policy: Policy, es: seq<Event<V>>, n: nat, k: nat, r: PopResult<V>, last: bool)
    requires |es| == n + 1 && last == ReturnedAt(capacity, policy, es, n, k, r)
    ensures EverReturned(capacity, policy, es, k, r) <==> EverReturned(capacity, policy, es[..n], k, r) || last
  {
    if i: nat :| ReturnedAt(capacity, policy, es, i, k, r) {
      if i < n { ReturnedEarlier(capacity, policy, es, es[..n], i, k, r); }
    }
    if i: nat :| ReturnedAt(capacity, policy, es[..n], i, k, r) {
      ReturnedEarlier(capacity, policy, es, es[..n], i, k, r);
    }
  }

  lemma StepDecidesPop<V>(s: State<V>, e: Event<V>, k: nat, r: PopResult<V>)
    requires Enabled(s, e)
    ensures PopIs(Apply(s, e), k, r) <==> PopIs(s, k, r) || ReturnsIn(s, e, k, r)
  {
  }

  /** Pop returns a value exactly if it found one at the head; it reports closed exactly if it found
      the queue empty and closed; it gives up exactly if its context had ended and, once it was
      waiting, the queue was empty and open. */
  lemma {:induction false} PopMeans<V>(capacity: nat, policy: Policy, es: seq<Event<V>>, k: nat, r: PopResult<V>)
    requires Possible(capacity, policy, es)
    ensures PopIs(After(capacity, policy, es), k, r) <==> EverReturned(capacity, policy, es, k, r)
    decreases |es|
  {
    if es != [] {
      var n := |es| - 1;
      PopMeans(capacity, policy, es[..n], k, r);
      StepDecidesPop(After(capacity, policy, es[..n]), es[n], k, r);
      ReturnedByLast(capacity, policy, es, n, k, r, ReturnsIn(After(capacity, policy, es[..n]), es[n], k, r));
    }
  }

  lemma StepCancels<V>(s: State<V>, e: Event<V>, k: nat)
    requires Enabled(s, e)
    ensures k < |Apply(s, e).pops| ==>
      (Apply(s, e).pops[k].ctxDone <==> (k < |s.pops| && s.pops[k].ctxDone) || e == CancelCtx(k))
    ensures e == CancelCtx(k) ==> k < |s.pops|
    ensures |s.pops| <= |Apply(s, e).pops|
  {
  }

  /** A call's context has ended exactly if it was cancelled. */
  lemma {:induction false} CtxDoneIff<V>(capacity: nat, policy: Policy, es: seq<Event<V>>, k: nat)
    requires Possible(capacity, policy, es)
    ensures CancelCtx(k) in es <==> k < |After(capacity, policy, es).pops| && After(capacity, policy, es).pops[k].ctxDone
    decreases |es|
  {
    if es != [] {
      var n := |es| - 1;
      var before := es[..n];
      CtxDoneIff(capacity, policy, before, k);
      StepCancels(After(capacity, policy, before), es[n], k);
      assert es == before + [es[n]];
    }
  }

  lemma StepCloses<V>(s: State<V>, e: Event<V>)
    requires Enabled(s, e)
    ensures Apply(s, e).core.closed <==> s.core.closed || e.CloseSwap?
  {
  }

  ghost predicate CloseRan<V>(es: seq<Event<V>>) {
    exists c: nat :: CloseSwap(c) in es
  }

  /** The queue is closed exactly if some Close call has run. */
  lemma {:induction false} ClosedIff<V>(capacity: nat, policy: Policy, es: seq<Event<V>>)
    requires Possible(capacity, policy, es)
    ensures After(capacity, policy, es).core.closed <==> CloseRan(es)
    decreases |es|
  {
    if es != [] {
      var n := |es| - 1;
      var before := es[..n];
      ClosedIff(capacity, policy, before);
      StepCloses(After(capacity, policy, before), es[n]);
      assert es == before + [es[n]];
      if CloseRan(before) {
        var c: nat :| CloseSwap(c) in before;
        assert CloseSwap(c) in es;
      }
      if CloseRan(es) && !CloseRan(before) {
        var c: nat :| CloseSwap(c) in es;
        assert es[n] == CloseSwap(c);
      }
      if es[n].CloseSwap? { assert CloseSwap(es[n].c) in es; }
    }
  }
}
