/** One outbound WebSocket connection of the Wasm gateway (internal/wasm/gateway.go): its read loop,
    its reconnect loops, and any number of CloseConn and CloseAll calls, interleaved freely. */
module Gateway {
  import opened Common

  datatype ReaderPc =
    | Entering                  // goroutine started, flag not yet stored
    | Reading
    | Leaving                   // read failed, closing section not yet run
    | Clearing                  // closing section done, flag not yet cleared
    | ReaderDone

  datatype ReconnectPc =
    | Checking(stage: Stage)     // about to snapshot the stop channel
    | Selecting(ch: nat, stage: Stage)
    | Dialing
    | Installing(socket: nat)   // dial succeeded, about to take the connection's mutex
    | AwaitingReader            // installed, waiting for the old read loop to finish
    | ReconnectDone

  /** The check before the back-off sleep and the one after it. */
  datatype Stage = BeforeSleep | AfterSleep

  datatype CloserPc =
    | Claiming                  // about to remove the connection from the map
    | Claimed                   // removed it; about to close the stop channel
    | Closing                   // stop channel closed; about to close the socket
    | CloserDone
    | NotFound

  datatype State = State(
    inMap: bool,
    closed: bool,
    stopCh: nat,                // identity of the current stop channel
    channels: nat,              // channels made so far
    closedChs: seq<nat>,        // history: every close of a stop channel, in order
    ws: nat,                    // identity of the current socket
    sockets: nat,               // sockets dialled so far
    closedWs: set<nat>,
    running: bool,              // readLoopRunning
    readers: seq<ReaderPc>,
    reconnects: seq<ReconnectPc>,
    closers: seq<CloserPc>)

  /** Connect has stored the connection and started its read loop. */
  function Init(): State {
    State(true, false, 0, 1, [], 0, 1, {}, false, [Entering], [], [])
  }

  datatype Event =
    | CallClose
    | StoreRunning(r: nat) | ReadFails(r: nat) | CloseSection(r: nat) | ClearRunning(r: nat)
    | Snapshot(c: nat) | Select(c: nat) | DialFails(c: nat, more: bool) | DialSucceeds(c: nat)
    | Install(c: nat) | SpawnReader(c: nat)
    | GiveUp(c: nat)            // reconnecting is not configured, or no attempts are allowed
    | Claim(k: nat) | CloseStop(k: nat) | CloseSocket(k: nat)

  ghost predicate Enabled(s: State, e: Event) {
    match e
    case CallClose => true
    case StoreRunning(r) => r < |s.readers| && s.readers[r].Entering?
    case ReadFails(r) => r < |s.readers| && s.readers[r].Reading?
    case CloseSection(r) => r < |s.readers| && s.readers[r].Leaving?
    case ClearRunning(r) => r < |s.readers| && s.readers[r].Clearing?
    case Snapshot(c) => c < |s.reconnects| && s.reconnects[c].Checking?
    case GiveUp(c) => c < |s.reconnects| && s.reconnects[c].Checking?
    case Select(c) => c < |s.reconnects| && s.reconnects[c].Selecting?
    case DialFails(c, _) => c < |s.reconnects| && s.reconnects[c].Dialing?
    case DialSucceeds(c) => c < |s.reconnects| && s.reconnects[c].Dialing?
    case Install(c) => c < |s.reconnects| && s.reconnects[c].Installing?
    case SpawnReader(c) => c < |s.reconnects| && s.reconnects[c].AwaitingReader? && !s.running
    case Claim(k) => k < |s.closers| && s.closers[k].Claiming?
    case CloseStop(k) => k < |s.closers| && s.closers[k].Claimed?
    case CloseSocket(k) => k < |s.closers| && s.closers[k].Closing?
  }

  ghost predicate Torn(s: State) {
    s.stopCh in s.closedChs
  }

  ghost function Apply(s: State, e: Event): State
    requires Enabled(s, e)
  {
    match e
    case CallClose => s.(closers := s.closers + [Claiming])
    case StoreRunning(r) => s.(readers := s.readers[r := Reading], running := true)
    case ReadFails(r) => s.(readers := s.readers[r := Leaving])
    case CloseSection(r) =>
      s.(readers := s.readers[r := Clearing], closed := true,
         reconnects := if s.closed then s.reconnects else s.reconnects + [Checking(BeforeSleep)])
    case ClearRunning(r) => s.(readers := s.readers[r := ReaderDone], running := false)
    case Snapshot(c) => s.(reconnects := s.reconnects[c := Selecting(s.stopCh, s.reconnects[c].stage)])
    case GiveUp(c) => s.(reconnects := s.reconnects[c := ReconnectDone])
    case Select(c) =>
      var pc := s.reconnects[c];
      s.(reconnects := s.reconnects[c :=
           if pc.ch in s.closedChs then ReconnectDone
           else if pc.stage.BeforeSleep? then Checking(AfterSleep) else Dialing])
    case DialFails(c, more) => s.(reconnects := s.reconnects[c := if more then Checking(BeforeSleep) else ReconnectDone])
    case DialSucceeds(c) => s.(reconnects := s.reconnects[c := Installing(s.sockets)], sockets := s.sockets + 1)
    case Install(c) =>
      var socket := s.reconnects[c].socket;
      if Torn(s) then s.(reconnects := s.reconnects[c := ReconnectDone], closedWs := s.closedWs + {socket})
      else s.(reconnects := s.reconnects[c := AwaitingReader], ws := socket,
              closed := false, stopCh := s.channels, channels := s.channels + 1)
    case SpawnReader(c) => s.(reconnects := s.reconnects[c := ReconnectDone], readers := s.readers + [Entering])
    case Claim(k) => s.(closers := s.closers[k := if s.inMap then Claimed else NotFound], inMap := false)
    case CloseStop(k) => s.(closers := s.closers[k := Closing], closed := true, closedChs := s.closedChs + [s.stopCh])
    case CloseSocket(k) => s.(closers := s.closers[k := CloserDone], closedWs := s.closedWs + {s.ws})
  }

  ghost predicate Possible(es: seq<Event>)
    decreases |es|, 0
  {
    es == [] || (Possible(es[..|es|-1]) && Enabled(After(es[..|es|-1]), es[|es|-1]))
  }

  ghost function After(es: seq<Event>): State
    requires Possible(es)
    decreases |es|, 1
  {
    if es == [] then Init() else Apply(After(es[..|es|-1]), es[|es|-1])
  }

  // ---------------------------------------------------------------------------
  // Invariants

  ghost function Live(): ReaderPc -> bool {
    (r: ReaderPc) => r.Entering? || r.Reading? || r.Leaving?
  }

  ghost function Trying(): ReconnectPc -> bool {
    (c: ReconnectPc) => !c.ReconnectDone?
  }

  ghost function Holding(): ReaderPc -> bool {
    (r: ReaderPc) => r.Reading? || r.Leaving? || r.Clearing?
  }

  ghost function Responsible(): CloserPc -> bool {
    (k: CloserPc) => k.Claimed? || k.Closing? || k.CloserDone?
  }

  /** At most one read loop or reconnect loop drives the connection, and while a reconnect loop has
      not installed its socket the connection is marked closed. */
  ghost predicate OneDriver(s: State) {
    && Tally(Live(), s.readers) + Tally(Trying(), s.reconnects) <= 1
    && (forall c :: 0 <= c < |s.reconnects| && Trying()(s.reconnects[c]) && !s.reconnects[c].AwaitingReader? ==> s.closed)
  }

  /** The running flag is set exactly while some read loop is between storing and clearing it, and
      no two are. */
  ghost predicate FlagTruthful(s: State) {
    Tally(Holding(), s.readers) == (if s.running then 1 else 0)
    && (forall r :: 0 <= r < |s.readers| && s.readers[r].Entering? ==> !s.running)
  }

  /** The map entry is claimed by at most one closing call, which closes the channel current at that
      time; no other channel is ever closed, and afterwards the connection stays closed. */
  ghost predicate TeardownOnce(s: State) {
    && (if s.inMap then 0 else 1) == Tally(Responsible(), s.closers)
    && |s.closedChs| <= 1
    && (|s.closedChs| == 1 ==> s.closedChs == [s.stopCh] && s.closed && !s.inMap)
    && (forall k :: 0 <= k < |s.closers| ==>
          && (s.closers[k].Claimed? ==> s.closedChs == [])
          && (s.closers[k].Closing? || s.closers[k].CloserDone? ==> |s.closedChs| == 1)
          && (s.closers[k].CloserDone? ==> s.ws in s.closedWs))
    && s.stopCh < s.channels
  }

  ghost predicate Inv(s: State) {
    OneDriver(s) && FlagTruthful(s) && TeardownOnce(s)
  }

  // ---------------------------------------------------------------------------
  // Steps

  lemma ReaderStepDriver(s: State, e: Event)
    requires OneDriver(s) && Enabled(s, e)
    requires e.StoreRunning? || e.ReadFails? || e.CloseSection? || e.ClearRunning?
    ensures OneDriver(Apply(s, e))
  {
    var s' := Apply(s, e);
    TallyUpdate(Live(), s.readers, e.r, s'.readers[e.r]);
    if e.CloseSection? && !s.closed {
      TallyAppend(Trying(), s.reconnects, Checking(BeforeSleep));
      TallyPositive(Live(), s.readers, e.r);
    }
  }

  lemma ReconnectStepDriver(s: State, e: Event)
    requires OneDriver(s) && Enabled(s, e)
    requires e.Snapshot? || e.Select? || e.DialFails? || e.DialSucceeds? || e.Install? || e.SpawnReader? || e.GiveUp?
    ensures OneDriver(Apply(s, e))
  {
    var s' := Apply(s, e);
    TallyUpdate(Trying(), s.reconnects, e.c, s'.reconnects[e.c]);
    TallyPositive(Trying(), s.reconnects, e.c);
    if e.SpawnReader? { TallyAppend(Live(), s.readers, Entering); }
    forall c | 0 <= c < |s'.reconnects| && Trying()(s'.reconnects[c]) && !s'.reconnects[c].AwaitingReader? ensures s'.closed {
      if c != e.c {
        if c < e.c { TallyTwo(Trying(), s.reconnects, c, e.c); } else { TallyTwo(Trying(), s.reconnects, e.c, c); }
      }
    }
  }

  lemma ReaderStepFlag(s: State, e: Event)
    requires OneDriver(s) && FlagTruthful(s) && Enabled(s, e)
    requires e.StoreRunning? || e.ReadFails? || e.CloseSection? || e.ClearRunning?
    ensures FlagTruthful(Apply(s, e))
  {
    var s' := Apply(s, e);
    TallyUpdate(Holding(), s.readers, e.r, s'.readers[e.r]);
    if e.ClearRunning? { TallyPositive(Holding(), s.readers, e.r); }
    forall r | 0 <= r < |s'.readers| && s'.readers[r].Entering? ensures !s'.running {
      if e.StoreRunning? {
        if r < e.r { TallyTwo(Live(), s.readers, r, e.r); } else { TallyTwo(Live(), s.readers, e.r, r); }
      }
    }
  }

  lemma SpawnStepFlag(s: State, e: Event)
    requires FlagTruthful(s) && Enabled(s, e) && e.SpawnReader?
    ensures FlagTruthful(Apply(s, e))
  {
    TallyAppend(Holding(), s.readers, Entering);
  }

  lemma CloserStepTeardown(s: State, e: Event)
    requires TeardownOnce(s) && Enabled(s, e) && (e.Claim? || e.CloseStop? || e.CloseSocket?)
    ensures TeardownOnce(Apply(s, e))
  {
    var s' := Apply(s, e);
    TallyUpdate(Responsible(), s.closers, e.k, s'.closers[e.k]);
    if !e.Claim? { TallyPositive(Responsible(), s.closers, e.k); }
    forall k | 0 <= k < |s'.closers| && k != e.k && Responsible()(s'.closers[k]) ensures !Responsible()(s'.closers[e.k]) {
      if Responsible()(s'.closers[e.k]) {
        if k < e.k { TallyTwo(Responsible(), s'.closers, k, e.k); } else { TallyTwo(Responsible(), s'.closers, e.k, k); }
      }
    }
  }

  lemma OtherStepTeardown(s: State, e: Event)
    requires TeardownOnce(s) && Enabled(s, e) && !e.Claim? && !e.CloseStop? && !e.CloseSocket?
    ensures TeardownOnce(Apply(s, e))
  {
    if e.CallClose? { TallyAppend(Responsible(), s.closers, Claiming); }
  }

  lemma StepInv(s: State, e: Event)
    requires Inv(s) && Enabled(s, e)
    ensures Inv(Apply(s, e))
  {
    if e.Claim? || e.CloseStop? || e.CloseSocket? { CloserStepTeardown(s, e); } else { OtherStepTeardown(s, e); }
    if e.StoreRunning? || e.ReadFails? || e.CloseSection? || e.ClearRunning? {
      ReaderStepDriver(s, e);
      ReaderStepFlag(s, e);
    } else if !e.Claim? && !e.CloseStop? && !e.CloseSocket? && !e.CallClose? {
      ReconnectStepDriver(s, e);
      if e.SpawnReader? { SpawnStepFlag(s, e); }
    }
  }

  lemma {:induction false} RunInv(es: seq<Event>)
    requires Possible(es)
    ensures Inv(After(es))
    decreases |es|
  {
    if es != [] {
      RunInv(es[..|es|-1]);
      StepInv(After(es[..|es|-1]), es[|es|-1]);
    }
  }

  // ---------------------------------------------------------------------------
  // What a connection guarantees

  /** At any time at most one read loop is reading, and no stop channel has been closed twice. */
  lemma OneReaderOneClose(es: seq<Event>, q: nat, r: nat)
    requires Possible(es) && q < r < |After(es).readers|
    ensures var s := After(es);
      && !(s.readers[q].Reading? && s.readers[r].Reading?)
      && !(Holding()(s.readers[q]) && Holding()(s.readers[r]))
      && |s.closedChs| <= 1
  {
    RunInv(es);
    var s := After(es);
    if Holding()(s.readers[q]) && Holding()(s.readers[r]) { TallyTwo(Holding(), s.readers, q, r); }
  }

  lemma StepStaysTorn(s: State, e: Event)
    requires Inv(s) && Torn(s) && Enabled(s, e)
    ensures var s' := Apply(s, e); Torn(s') && s'.stopCh == s.stopCh && s'.ws == s.ws && s'.closed
  {
    if e.CloseStop? { TallyPositive(Responsible(), s.closers, e.k); }
  }

  /** Teardown is permanent: once the current stop channel has been closed, no interleaving with
      reconnect loops replaces the channel or the socket or marks the connection open again. */
  lemma {:induction false} TeardownIsPermanent(es: seq<Event>, more: seq<Event>)
    requires Possible(es) && Possible(es + more) && Torn(After(es))
    ensures var s, s' := After(es), After(es + more);
      Torn(s') && s'.stopCh == s.stopCh && s'.ws == s.ws && s'.closed
    decreases |more|
  {
    RunInv(es + more);
    if more == [] {
      assert es + more == es;
    } else {
      var n := |more| - 1;
      assert (es + more)[..|es + more|-1] == es + more[..n];
      TeardownIsPermanent(es, more[..n]);
      RunInv(es + more[..n]);
      StepStaysTorn(After(es + more[..n]), more[n]);
    }
  }

  /** When a closing call that found the connection has finished, the current socket is closed. */
  lemma FinishedCloseClosesSocket(es: seq<Event>, k: nat)
    requires Possible(es) && k < |After(es).closers| && After(es).closers[k].CloserDone?
    ensures Torn(After(es)) && After(es).ws in After(es).closedWs
  {
    RunInv(es);
  }

  /** After teardown no further reconnect loop is ever started by a read loop that ends. */
  lemma NoReconnectAfterTeardown(es: seq<Event>, e: Event)
    requires Possible(es) && Torn(After(es)) && Enabled(After(es), e)
    ensures |Apply(After(es), e).reconnects| == |After(es).reconnects|
  {
    RunInv(es);
  }
}
