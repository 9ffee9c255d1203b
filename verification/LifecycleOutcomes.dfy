/** What StartAll's result means (internal/lifecycle/lifecycle.go), over every run with any number of
    concurrent StopAll calls. */
module LifecycleOutcomes {
  import opened Lifecycle

  // ---------------------------------------------------------------------------
  // What happened, read off the events

  /** What the components' Start calls returned, in the order of the calls. */
  ghost function Answers(es: seq<Event>): seq<bool> {
    if es == [] then []
    else
      var e := es[|es|-1];
      Answers(es[..|es|-1]) + if e.StartReturns? then [e.ok] else []
  }

  /** With its i-th event StartAll finds a shutdown under way. */
  ghost predicate FindsShutdownAt(n: nat, es: seq<Event>, i: nat) {
    && i < |es| && (es[i] == CheckDown || es[i] == Decide)
    && Possible(n, es[..i]) && After(n, es[..i]).shuttingDown
  }

  ghost predicate FindsShutdown(n: nat, es: seq<Event>) {
    exists i: nat :: FindsShutdownAt(n, es, i)
  }

  lemma FindsEarlier(n: nat, es: seq<Event>, before: seq<Event>, i: nat)
    requires before <= es && i < |before|
    ensures FindsShutdownAt(n, es, i) <==> FindsShutdownAt(n, before, i)
  {
    assert before[..i] == es[..i];
  }

  lemma FindsByLast(n: nat, es: seq<Event>, m: nat, last: bool)
    requires |es| == m + 1 && last == FindsShutdownAt(n, es, m)
    ensures FindsShutdown(n, es) <==> FindsShutdown(n, es[..m]) || last
  {
    if i: nat :| FindsShutdownAt(n, es, i) {
      if i < m { FindsEarlier(n, es, es[..m], i); }
    }
    if i: nat :| FindsShutdownAt(n, es[..m], i) { FindsEarlier(n, es, es[..m], i); }
  }

  // ---------------------------------------------------------------------------
  // StartAll's position tells what has happened

  ghost predicate Told(s: State, answers: seq<bool>, found: bool) {
    match s.start
    case NotCalled => answers == [] && !found
    case Check(i) => |answers| == i && false !in answers && !found
    case Starting(i) => |answers| == i && false !in answers && !found
    case Deciding(i, ok) => |answers| == i + 1 && answers[i] == ok && false !in answers[..i] && !found
    case SelfStopping(i) => |answers| == i + 1 && false !in answers && found
    case BeginRollback => false in answers || found
    case RollingBack(_) => false in answers || found
    case StartDone(ok) => if ok then |answers| == s.n && false !in answers && !found else false in answers || found
  }

  ghost predicate Remembered(s: State, answers: seq<bool>) {
    && |answers| <= |s.startOk|
    && forall k :: 0 <= k < |s.startOk| ==> s.startOk[k] == (k < |answers| && answers[k])
  }

  lemma AnswerTold(s: State, e: Event, answers: seq<bool>, found: bool)
    requires Shaped(s) && Positioned(s) && Enabled(s, e) && Told(s, answers, found) && e.StartReturns?
    ensures Told(Apply(s, e), answers + [e.ok], found)
  {
    assert (answers + [e.ok])[..|answers|] == answers;
  }

  lemma DecideTold(s: State, answers: seq<bool>, found: bool)
    requires Shaped(s) && Positioned(s) && Enabled(s, Decide) && Told(s, answers, found)
    ensures Told(Apply(s, Decide), answers, found || s.shuttingDown)
  {
    assert answers == answers[..s.start.i] + [s.start.ok];
  }

  lemma StepTold(s: State, e: Event, answers: seq<bool>, found: bool, answers': seq<bool>, found': bool)
    requires Shaped(s) && Positioned(s) && Enabled(s, e) && Told(s, answers, found)
    requires answers' == answers + if e.StartReturns? then [e.ok] else []
    requires found' == (found || ((e == CheckDown || e == Decide) && s.shuttingDown))
    ensures Told(Apply(s, e), answers', found')
  {
    if e.StartReturns? { AnswerTold(s, e, answers, found); }
    else if e.Decide? { DecideTold(s, answers, found); }
  }

  lemma StepRemembered(s: State, e: Event, answers: seq<bool>, found: bool, answers': seq<bool>)
    requires Shaped(s) && Positioned(s) && Enabled(s, e) && Told(s, answers, found) && Remembered(s, answers)
    requires answers' == answers + if e.StartReturns? then [e.ok] else []
    ensures Remembered(Apply(s, e), answers')
  {
  }

  lemma {:induction false} RunTold(n: nat, es: seq<Event>)
    requires Possible(n, es)
    ensures Told(After(n, es), Answers(es), FindsShutdown(n, es))
    ensures Remembered(After(n, es), Answers(es))
    decreases |es|
  {
    if es != [] {
      var m := |es| - 1;
      var s, e := After(n, es[..m]), es[m];
      RunTold(n, es[..m]);
      RunInv(n, es[..m]);
      FindsByLast(n, es, m, (e == CheckDown || e == Decide) && s.shuttingDown);
      StepTold(s, e, Answers(es[..m]), FindsShutdown(n, es[..m]), Answers(es), FindsShutdown(n, es));
      StepRemembered(s, e, Answers(es[..m]), FindsShutdown(n, es[..m]), Answers(es));
    }
  }

  // ---------------------------------------------------------------------------
  // Shutdowns come from StopAll calls

  /** Until StartAll rolls back, StopAll calls come only from outside. */
  ghost predicate StopsCalled(s: State, called: bool) {
    && (!s.start.RollingBack? && s.start != StartDone(false) && !called ==> s.stops == [])
    && (s.stops == [] ==> !s.shuttingDown)
  }

  lemma StepStopsCalled(s: State, e: Event, called: bool)
    requires Shaped(s) && StopsCalled(s, called) && Enabled(s, e)
    ensures StopsCalled(Apply(s, e), called || e == CallStop)
  {
  }

  lemma {:induction false} RunStopsCalled(n: nat, es: seq<Event>)
    requires Possible(n, es)
    ensures StopsCalled(After(n, es), CallStop in es)
    decreases |es|
  {
    if es != [] {
      var m := |es| - 1;
      RunStopsCalled(n, es[..m]);
      RunInv(n, es[..m]);
      StepStopsCalled(After(n, es[..m]), es[m], CallStop in es[..m]);
      assert es == es[..m] + [es[m]];
    }
  }

  lemma {:induction false} PrefixPossible(n: nat, es: seq<Event>, i: nat)
    requires Possible(n, es) && i <= |es|
    ensures Possible(n, es[..i])
    ensures i < |es| ==> Enabled(After(n, es[..i]), es[i])
    decreases |es| - i
  {
    if i == |es| {
      assert es[..i] == es;
    } else {
      PrefixPossible(n, es, i + 1);
      assert es[..i+1][..i] == es[..i];
    }
  }

  lemma FoundMeansCalled(n: nat, es: seq<Event>)
    requires Possible(n, es) && FindsShutdown(n, es)
    ensures CallStop in es
  {
    var i: nat :| FindsShutdownAt(n, es, i);
    PrefixPossible(n, es, i);
    RunStopsCalled(n, es[..i]);
  }

  // ---------------------------------------------------------------------------
  // The result

  /** StartAll returns nil if and only if all components were started, every Start succeeded, and it
      never found a shutdown under way. Otherwise some Start failed, or somebody called StopAll. */
  lemma StartResult(n: nat, es: seq<Event>)
    requires Possible(n, es) && After(n, es).start.StartDone?
    ensures After(n, es).start.ok <==> |Answers(es)| == n && false !in Answers(es) && !FindsShutdown(n, es)
    ensures !After(n, es).start.ok ==> StartReturns(false) in es || CallStop in es
    ensures StartReturns(false) in es ==> !After(n, es).start.ok
  {
    RunTold(n, es);
    RunInv(n, es);
    AnswersListed(es);
    if FindsShutdown(n, es) { FoundMeansCalled(n, es); }
  }

  lemma {:induction false} AnswersListed(es: seq<Event>)
    ensures false in Answers(es) <==> StartReturns(false) in es
    decreases |es|
  {
    if es != [] {
      AnswersListed(es[..|es|-1]);
      assert es == es[..|es|-1] + [es[|es|-1]];
    }
  }

  /** Components are started one after the other in registration order, and none after a failure:
      the k-th answer is that of component k, and only the last answer can be a failure. */
  lemma StartsInOrder(n: nat, es: seq<Event>)
    requires Possible(n, es)
    ensures |Answers(es)| <= n == |After(n, es).startOk|
    ensures forall k :: 0 <= k < n ==> (After(n, es).startOk[k] <==> k < |Answers(es)| && Answers(es)[k])
    ensures Answers(es) != [] ==> false !in Answers(es)[..|Answers(es)|-1]
    decreases |es|
  {
    RunTold(n, es);
    RunInv(n, es);
    OnlyLastFails(n, es);
  }

  lemma {:induction false} OnlyLastFails(n: nat, es: seq<Event>)
    requires Possible(n, es)
    ensures Answers(es) != [] ==> false !in Answers(es)[..|Answers(es)|-1]
    decreases |es|
  {
    if es != [] {
      var before := es[..|es|-1];
      OnlyLastFails(n, before);
      RunTold(n, before);
      if es[|es|-1].StartReturns? { assert Answers(es)[..|Answers(es)|-1] == Answers(before); }
    }
  }
}
