/** What reconnecting (internal/wasm/gateway.go) achieves: a connection that was not torn down comes
    back, and a reconnect loop stops early only for a stated reason. */
module GatewayRecovery {
  import opened Common
  import opened Gateway

  // ---------------------------------------------------------------------------
  // Snapshots stay current

  /** The stop channel a reconnect loop looks at is still the connection's. */
  ghost predicate SnapshotsCurrent(s: State) {
    forall c :: 0 <= c < |s.reconnects| && s.reconnects[c].Selecting? ==> s.reconnects[c].ch == s.stopCh
  }

  lemma StepCurrent(s: State, e: Event)
    requires Inv(s) && SnapshotsCurrent(s) && Enabled(s, e)
    ensures SnapshotsCurrent(Apply(s, e))
  {
    if e.Install? {
      forall c | 0 <= c < |s.reconnects| && s.reconnects[c].Selecting? ensures false {
        if c < e.c { TallyTwo(Trying(), s.reconnects, c, e.c); } else { TallyTwo(Trying(), s.reconnects, e.c, c); }
      }
    }
  }

  /** Sockets are numbered as they are dialled, and one that waits to be installed has had no other use. */
  ghost predicate SocketsFresh(s: State) {
    && s.ws < s.sockets && (forall w :: w in s.closedWs ==> w < s.sockets)
    && forall c :: 0 <= c < |s.reconnects| && s.reconnects[c].Installing? ==>
         s.reconnects[c].socket < s.sockets && s.reconnects[c].socket != s.ws && s.reconnects[c].socket !in s.closedWs
  }

  lemma StepFresh(s: State, e: Event)
    requires OneDriver(s) && SocketsFresh(s) && Enabled(s, e)
    ensures SocketsFresh(Apply(s, e))
  {
    if e.Install? {
      forall c | 0 <= c < |s.reconnects| && c != e.c ensures !s.reconnects[c].Installing? {
        if s.reconnects[c].Installing? {
          if c < e.c { TallyTwo(Trying(), s.reconnects, c, e.c); } else { TallyTwo(Trying(), s.reconnects, e.c, c); }
        }
      }
    }
  }

  lemma {:induction false} RunCurrent(es: seq<Event>)
    requires Possible(es)
    ensures Inv(After(es)) && SnapshotsCurrent(After(es)) && SocketsFresh(After(es))
    decreases |es|
  {
    RunInv(es);
    if es != [] {
      RunCurrent(es[..|es|-1]);
      StepCurrent(After(es[..|es|-1]), es[|es|-1]);
      StepFresh(After(es[..|es|-1]), es[|es|-1]);
    }
  }

  // ---------------------------------------------------------------------------
  // The checks

  /** A check stops the loop if and only if the connection has been torn down. */
  lemma CheckStopsIffTorn(es: seq<Event>, c: nat)
    requires Possible(es) && Enabled(After(es), Select(c))
    ensures Apply(After(es), Select(c)).reconnects[c].ReconnectDone? <==> Torn(After(es))
  {
    RunCurrent(es);
  }

  /** A dialled socket is installed if and only if the connection has not been torn down; then the
      connection is open again, on a socket that was not used before and under a stop channel that nobody
      has closed. Otherwise the socket is closed and the connection stays as it was. */
  lemma InstalledIffNotTorn(es: seq<Event>, c: nat, s: State, s': State)
    requires Possible(es) && s == After(es) && Enabled(s, Install(c)) && s' == Apply(s, Install(c))
    ensures !Torn(s) ==>
      && s'.ws == s.reconnects[c].socket && s'.ws != s.ws && s'.ws !in s'.closedWs
      && !s'.closed && s'.stopCh != s.stopCh && !Torn(s') && s'.reconnects[c].AwaitingReader?
    ensures Torn(s) ==>
      && s.reconnects[c].socket in s'.closedWs && s'.reconnects[c].ReconnectDone?
      && s'.ws == s.ws && s'.closed && s'.stopCh == s.stopCh
  {
    RunCurrent(es);
  }

  /** Why a step ends a reconnect loop: it is not configured, its attempts are used up, a check or the
      installation finds the connection torn down, or its read loop is started. */
  ghost predicate Ends(s: State, e: Event, c: nat) {
    || e == GiveUp(c) || e == DialFails(c, false) || e == SpawnReader(c)
    || ((e == Select(c) || e == Install(c)) && Torn(s))
  }

  lemma EndsExactlyWhen(es: seq<Event>, e: Event, c: nat)
    requires Possible(es) && Enabled(After(es), e) && c < |After(es).reconnects| && !After(es).reconnects[c].ReconnectDone?
    ensures c < |Apply(After(es), e).reconnects|
    ensures Apply(After(es), e).reconnects[c].ReconnectDone? <==> Ends(After(es), e, c)
    ensures |Apply(After(es), e).readers| == |After(es).readers| + if e.SpawnReader? then 1 else 0
  {
    RunCurrent(es);
    EndsInState(After(es), e, c);
  }

  lemma EndsInState(s: State, e: Event, c: nat)
    requires Enabled(s, e) && SnapshotsCurrent(s) && c < |s.reconnects| && !s.reconnects[c].ReconnectDone?
    ensures c < |Apply(s, e).reconnects| && (Apply(s, e).reconnects[c].ReconnectDone? <==> Ends(s, e, c))
    ensures |Apply(s, e).readers| == |s.readers| + if e.SpawnReader? then 1 else 0
  {
    if e.Select? || e.Install? || e.DialFails? || e.DialSucceeds? { AttemptEnds(s, e, c); }
    else { OtherEnds(s, e, c); }
  }

  lemma AttemptEnds(s: State, e: Event, c: nat)
    requires Enabled(s, e) && SnapshotsCurrent(s) && c < |s.reconnects| && !s.reconnects[c].ReconnectDone?
    requires e.Select? || e.Install? || e.DialFails? || e.DialSucceeds?
    ensures c < |Apply(s, e).reconnects| && (Apply(s, e).reconnects[c].ReconnectDone? <==> Ends(s, e, c))
    ensures |Apply(s, e).readers| == |s.readers|
  {
    if e.c == c && e.Select? { assert s.reconnects[c].ch == s.stopCh; }
  }

  lemma OtherEnds(s: State, e: Event, c: nat)
    requires Enabled(s, e) && c < |s.reconnects| && !s.reconnects[c].ReconnectDone?
    requires !e.Select? && !e.Install? && !e.DialFails? && !e.DialSucceeds?
    ensures c < |Apply(s, e).reconnects| && (Apply(s, e).reconnects[c].ReconnectDone? <==> Ends(s, e, c))
    ensures |Apply(s, e).readers| == |s.readers| + if e.SpawnReader? then 1 else 0
  {
  }

  // ---------------------------------------------------------------------------
  // Recovery

  lemma Then(es: seq<Event>, e: Event) returns (next: seq<Event>)
    requires Possible(es) && Enabled(After(es), e)
    ensures next == es + [e] && Possible(next) && After(next) == Apply(After(es), e)
  {
    next := es + [e];
    assert next[..|next|-1] == es;
  }

  /** While a reconnect loop waits for the old read loop, that one has left its closing section. */
  lemma OnlyClearing(s: State, c: nat)
    requires Inv(s) && c < |s.reconnects| && s.reconnects[c].AwaitingReader? && s.running
    ensures exists r :: 0 <= r < |s.readers| && s.readers[r].Clearing?
  {
    var r := TallyWitness(Holding(), s.readers);
    TallyPositive(Trying(), s.reconnects, c);
    if Live()(s.readers[r]) { TallyPositive(Live(), s.readers, r); }
  }

  /** The wait for the old read loop ends: unless the new one can be started, the old one is about to
      clear the flag, and then it can. */
  lemma WaitEnds(es: seq<Event>, c: nat) returns (es': seq<Event>)
    requires Possible(es) && c < |After(es).reconnects| && After(es).reconnects[c].AwaitingReader?
    ensures es <= es' && |es'| <= |es| + 1 && Possible(es') && Enabled(After(es'), SpawnReader(c))
    ensures var s, s' := After(es), After(es'); s'.ws == s.ws && s'.closed == s.closed && s'.stopCh == s.stopCh && s'.closedChs == s.closedChs
  {
    var s := After(es);
    RunInv(es);
    if s.running {
      OnlyClearing(s, c);
      var r: nat :| r < |s.readers| && s.readers[r].Clearing?;
      es' := Then(es, ClearRunning(r));
    } else {
      es' := es;
    }
  }

  /** The connection is open, its current socket is `ws`, and a read loop reads from it. */
  ghost predicate Up(s: State, ws: nat) {
    !s.closed && !Torn(s) && s.ws == ws && exists r :: 0 <= r < |s.readers| && s.readers[r].Reading?
  }

  /** From a dialled socket: unless torn down, the run can go on to a connection that is up on it. */
  lemma ComesUp(es: seq<Event>, c: nat) returns (es': seq<Event>)
    requires Possible(es) && Enabled(After(es), Install(c)) && !Torn(After(es))
    ensures es <= es' && Possible(es') && Up(After(es'), After(es).reconnects[c].socket)
  {
    var s := After(es);
    es' := Then(es, Install(c));
    InstalledIffNotTorn(es, c, s, After(es'));
    es' := WaitEnds(es', c);
    es' := Then(es', SpawnReader(c));
    var r := |After(es').readers| - 1;
    es' := Then(es', StoreRunning(r));
    assert After(es').readers[r].Reading?;
  }

  lemma PassesCheck(es: seq<Event>, c: nat) returns (es': seq<Event>)
    requires Possible(es) && c < |After(es).reconnects| && !Torn(After(es)) && After(es).reconnects[c].Checking?
    ensures es <= es' && |es'| == |es| + 2 && Possible(es') && !Torn(After(es')) && After(es').sockets == After(es).sockets
    ensures c < |After(es').reconnects|
    ensures After(es').reconnects[c] == if After(es).reconnects[c].stage.BeforeSleep? then Checking(AfterSleep) else Dialing
  {
    es' := Then(es, Snapshot(c));
    CheckStopsIffTorn(es', c);
    es' := Then(es', Select(c));
  }

  /** After any number of failed dials the next one can succeed. */
  lemma {:induction false} Dials(es: seq<Event>, c: nat, failures: nat) returns (es': seq<Event>)
    requires Possible(es) && c < |After(es).reconnects| && !Torn(After(es))
    requires After(es).reconnects[c] == Checking(BeforeSleep)
    ensures es <= es' && |es'| == |es| + 5 * failures + 5
    ensures Possible(es') && Enabled(After(es'), Install(c)) && !Torn(After(es'))
    ensures After(es').reconnects[c] == Installing(After(es).sockets)
    decreases failures
  {
    es' := PassesCheck(es, c);
    es' := PassesCheck(es', c);
    if failures == 0 {
      es' := Then(es', DialSucceeds(c));
    } else {
      es' := Then(es', DialFails(c, true));
      es' := Dials(es', c, failures - 1);
    }
  }

  /** Whenever the read loop of an open connection fails, the run can go on, through any number of failed
      dials, so that the connection is up again on a newly dialled socket. */
  lemma DropsRecover(es: seq<Event>, r: nat, failures: nat) returns (es': seq<Event>)
    requires Possible(es) && !After(es).closed && r < |After(es).readers| && After(es).readers[r].Reading?
    ensures es + [ReadFails(r)] <= es' && |es'| >= |es| + 5 * failures
    ensures Possible(es') && Up(After(es'), After(es).sockets)
  {
    RunInv(es);
    var s := After(es);
    assert !Torn(s);
    es' := Then(es, ReadFails(r));
    es' := Then(es', CloseSection(r));
    var c := |s.reconnects|;
    es' := Dials(es', c, failures);
    es' := ComesUp(es', c);
  }

  /** A new connection comes up as soon as its read loop runs. */
  lemma FreshComesUp() returns (es: seq<Event>)
    ensures Possible(es) && Up(After(es), Init().ws)
  {
    es := Then([], StoreRunning(0));
    assert After(es).readers[0].Reading?;
  }

  /** A closing call can always run to its end; then the connection is torn down and gone from the map, its
      socket closed, unless another closing call had claimed it first. */
  lemma CloseTearsDown(es: seq<Event>) returns (es': seq<Event>, k: nat)
    requires Possible(es)
    ensures es + [CallClose] <= es' && Possible(es') && k == |After(es).closers| < |After(es').closers| && !After(es').inMap
    ensures After(es).inMap ==>
      After(es').closers[k].CloserDone? && Torn(After(es')) && After(es').closed && After(es').ws in After(es').closedWs
    ensures !After(es).inMap ==> After(es').closers[k].NotFound?
  {
    k := |After(es).closers|;
    es' := Then(es, CallClose);
    es' := Then(es', Claim(k));
    if After(es).inMap { es' := ClaimedCloses(es', k); }
  }

  lemma ClaimedCloses(es: seq<Event>, k: nat) returns (es': seq<Event>)
    requires Possible(es) && k < |After(es).closers| && After(es).closers[k].Claimed? && !After(es).inMap
    ensures es <= es' && Possible(es') && k < |After(es').closers| && After(es').closers[k].CloserDone?
    ensures !After(es').inMap && Torn(After(es')) && After(es').closed && After(es').ws in After(es').closedWs
  {
    es' := Then(es, CloseStop(k));
    es' := Then(es', CloseSocket(k));
  }
}
