/** Reference counts over whole runs: an output that was stored is present as long as some node
    that may read it has not completed. */
module EvictionRuns {
  import opened Common
  import opened WorkflowGraph
  import opened Executor
  import opened ExecutorInvariant
  import opened ExecutorOrder
  import opened ExecutorTheorems
  import opened Eviction

  /** How many of its keys a goroutine has released. */
  ghost function Cleared(w: Setup, t: Thread): nat
    ensures Cleared(w, t) <= |Keys(w, t.node)|
  {
    match t.pc
    case Evicting(_, j) => if j <= |Keys(w, t.node)| then j else |Keys(w, t.node)|
    case Following(_, _) => |Keys(w, t.node)|
    case Arriving(_, _) => |Keys(w, t.node)|
    case _ => 0
  }

  ghost function Released(w: Setup, key: string): Thread -> bool {
    (t: Thread) => key in Keys(w, t.node)[..Cleared(w, t)]
  }

  /** Each count is the initial one less the releases so far. */
  ghost predicate Counts(w: Setup, s: State) {
    && s.refs.Keys == w.refs.Keys
    && forall key :: key in w.refs ==> s.refs[key] == w.refs[key] - Tally(Released(w, key), s.threads)
  }

  /** A stored output is present unless its count has run out. */
  ghost predicate Kept(w: Setup, s: State, t: Thread) {
    Fired(t.pc).Some? ==>
      || OutputKey(w.g, t.node) in s.outputs
      || (!w.retain && OutputKey(w.g, t.node) in s.refs && s.refs[OutputKey(w.g, t.node)] <= 0)
  }

  ghost predicate AllKept(w: Setup, s: State) {
    forall k :: 0 <= k < |s.threads| ==> Kept(w, s, s.threads[k])
  }

  // ---------------------------------------------------------------------------
  // Steps

  lemma KeysCounted(w: Setup, c: NodeId, j: nat)
    requires Tracks(w) && j < |Keys(w, c)|
    ensures Keys(w, c)[j] in w.refs
    ensures NoRepeats(Keys(w, c))
  {
    assert ListsKeys(w.g, w.consumers, w.g.nodes.Keys, c);
    assert At(w.consumers, c) == Keys(w, c);
    assert Keys(w, c)[j] in At(w.consumers, c);
    assert ReadsKey(w.g, w.g.nodes.Keys, c, Keys(w, c)[j]);
  }

  /** A predicate that one moving goroutine keeps, and a new one does not satisfy, keeps its tally. */
  lemma SameTally(f: Thread -> bool, threads: seq<Thread>, t: nat, moved: Thread, launched: seq<Thread>)
    requires t < |threads| && f(moved) == f(threads[t])
    requires |launched| <= 1 && (launched != [] ==> !f(launched[0]))
    ensures Tally(f, threads[t := moved] + launched) == Tally(f, threads)
  {
    var next := threads[t := moved];
    TallyUpdate(f, threads, t, moved);
    if launched == [] {
      assert next + launched == next;
    } else {
      assert launched == [launched[0]];
      TallyAppend(f, next, launched[0]);
    }
  }

  /** Steps that release nothing leave the counts right. */
  lemma NothingReleased(w: Setup, s: State, s': State, t: nat)
    requires Counts(w, s) && s'.refs == s.refs && t < |s.threads| && LaunchesOne(s, s')
    requires s'.threads[t].node == s.threads[t].node && Cleared(w, s'.threads[t]) == Cleared(w, s.threads[t])
    requires s'.threads[..|s.threads|] == s.threads[t := s'.threads[t]]
    ensures Counts(w, s')
  {
    var moved, launched := s'.threads[t], s'.threads[|s.threads|..];
    assert s'.threads == s.threads[t := moved] + launched;
    forall key | key in w.refs ensures s'.refs[key] == w.refs[key] - Tally(Released(w, key), s'.threads) {
      SameTally(Released(w, key), s.threads, t, moved, launched);
    }
  }

  /** A release takes exactly one key. */
  lemma OneReleased(w: Setup, t: Thread, t': Thread, key: string)
    requires t.pc.Evicting? && t.pc.index < |Keys(w, t.node)| && NoRepeats(Keys(w, t.node))
    requires t'.node == t.node && t'.pc.Evicting? && t'.pc.index == t.pc.index + 1
    ensures Released(w, key)(t') <==> Released(w, key)(t) || key == Keys(w, t.node)[t.pc.index]
    ensures key == Keys(w, t.node)[t.pc.index] ==> !Released(w, key)(t)
  {
    var keys := Keys(w, t.node);
    assert keys[..t.pc.index + 1] == keys[..t.pc.index] + [keys[t.pc.index]];
  }

  lemma ReleaseCounts(w: Setup, s: State, s': State, t: nat, key: string)
    requires Counts(w, s) && t < |s.threads| && s.threads[t].pc.Evicting?
    requires s.threads[t].pc.index < |Keys(w, s.threads[t].node)| && key == Keys(w, s.threads[t].node)[s.threads[t].pc.index]
    requires key in s.refs && NoRepeats(Keys(w, s.threads[t].node)) && s'.refs == s.refs[key := s.refs[key] - 1]
    requires s'.threads == Move(s, t, Evicting(s.threads[t].pc.output, s.threads[t].pc.index + 1)).threads
    ensures Counts(w, s')
  {
    forall k | k in w.refs ensures s'.refs[k] == w.refs[k] - Tally(Released(w, k), s'.threads) {
      OneReleased(w, s.threads[t], s'.threads[t], k);
      TallyUpdate(Released(w, k), s.threads, t, s'.threads[t]);
    }
  }

  lemma DoneEvictingCounts(w: Setup, s: State, t: nat)
    requires Counts(w, s) && t < |s.threads| && s.threads[t].pc.Evicting?
    requires s.threads[t].pc.index >= |Keys(w, s.threads[t].node)|
    ensures Counts(w, DoEvict(w, s, t))
  {
    NothingReleased(w, s, DoEvict(w, s, t), t);
  }

  lemma StillEvictingCounts(w: Setup, s: State, t: nat)
    requires Counts(w, s) && t < |s.threads| && s.threads[t].pc.Evicting?
    requires s.threads[t].pc.index < |Keys(w, s.threads[t].node)| && NoRepeats(Keys(w, s.threads[t].node))
    requires Keys(w, s.threads[t].node)[s.threads[t].pc.index] in w.refs
    ensures Counts(w, DoEvict(w, s, t))
  {
    ReleaseCounts(w, s, DoEvict(w, s, t), t, Keys(w, s.threads[t].node)[s.threads[t].pc.index]);
  }

  lemma EvictCounts(w: Setup, s: State, t: nat)
    requires Tracks(w) && Counts(w, s) && t < |s.threads| && s.threads[t].pc.Evicting?
    ensures Counts(w, DoEvict(w, s, t))
  {
    if s.threads[t].pc.index < |Keys(w, s.threads[t].node)| {
      KeysCounted(w, s.threads[t].node, s.threads[t].pc.index);
      StillEvictingCounts(w, s, t);
    } else {
      DoneEvictingCounts(w, s, t);
    }
  }

  lemma SwapCounts(w: Setup, s: State, t: nat)
    requires Counts(w, s) && AtSwap(w, s, t)
    ensures Counts(w, DoSwap(w, s, t))
  {
    SwapMoves(w, s, t);
    NothingReleased(w, s, DoSwap(w, s, t), t);
  }

  lemma ArriveCounts(w: Setup, s: State, t: nat)
    requires Counts(w, s) && AtArrival(w, s, t)
    ensures Counts(w, DoArrive(w, s, t))
  {
    ArriveMoves(w, s, t);
    NothingReleased(w, s, DoArrive(w, s, t), t);
  }

  lemma StepCounts(w: Setup, s: State, e: Event)
    requires Tracks(w) && Counts(w, s) && Enabled(w, s, e)
    ensures Counts(w, Apply(w, s, e))
  {
    if e.Launch? { LaunchCounts(w, s, Apply(w, s, e), w.g.entryNodes[s.launched]); }
    else if e.Evict? { EvictCounts(w, s, e.t); }
    else if e.Swap? { SwapCounts(w, s, e.t); }
    else if e.Arrive? { ArriveCounts(w, s, e.t); }
    else if !e.Cancel? { LocalCounts(w, s, e); }
  }

  lemma LaunchCounts(w: Setup, s: State, s': State, x: NodeId)
    requires Counts(w, s) && s'.refs == s.refs && s'.threads == s.threads + [Thread(x, Ready)]
    ensures Counts(w, s')
  {
    forall key | key in w.refs ensures s'.refs[key] == w.refs[key] - Tally(Released(w, key), s'.threads) {
      TallyAppend(Released(w, key), s.threads, Thread(x, Ready));
    }
  }

  lemma LocalCounts(w: Setup, s: State, e: Event)
    requires Counts(w, s) && Enabled(w, s, e) && (e.Check? || e.Settle? || e.Abort?)
    ensures Counts(w, Apply(w, s, e))
  {
    var pc := LocalStep(w, s, e);
    NothingReleased(w, s, Apply(w, s, e), e.t);
  }

  // ---------------------------------------------------------------------------

  lemma EvictKeeps(w: Setup, s: State, t: nat)
    requires AllKept(w, s) && s.refs.Keys == w.refs.Keys && t < |s.threads| && s.threads[t].pc.Evicting?
    ensures AllKept(w, DoEvict(w, s, t))
  {
    var s' := DoEvict(w, s, t);
    forall k | 0 <= k < |s'.threads| ensures Kept(w, s', s'.threads[k]) {
      assert Kept(w, s, s.threads[k]);
    }
  }

  lemma MoveKeeps(w: Setup, s: State, s': State, t: nat)
    requires AllKept(w, s) && t < |s.threads| && LaunchesOne(s, s')
    requires s'.refs == s.refs && s.outputs <= s'.outputs
    requires forall k :: 0 <= k < |s.threads| && k != t ==> s'.threads[k] == s.threads[k]
    requires s'.threads[t].node == s.threads[t].node
    requires Fired(s'.threads[t].pc).Some? ==> Fired(s.threads[t].pc).Some? || OutputKey(w.g, s.threads[t].node) in s'.outputs
    ensures AllKept(w, s')
  {
    forall k | 0 <= k < |s'.threads| ensures Kept(w, s', s'.threads[k]) {
      if k < |s.threads| { assert Kept(w, s, s.threads[k]); }
    }
  }

  lemma LocalKeeps(w: Setup, s: State, e: Event)
    requires AllKept(w, s) && Enabled(w, s, e) && (e.Check? || e.Settle? || e.Abort?)
    ensures AllKept(w, Apply(w, s, e))
  {
    var pc := LocalStep(w, s, e);
    MoveKeeps(w, s, Apply(w, s, e), e.t);
  }

  lemma SharedKeeps(w: Setup, s: State, e: Event)
    requires AllKept(w, s) && Enabled(w, s, e) && (e.Swap? || e.Arrive?)
    ensures AllKept(w, Apply(w, s, e))
  {
    if e.Swap? { SwapMoves(w, s, e.t); } else { ArriveMoves(w, s, e.t); }
    MoveKeeps(w, s, Apply(w, s, e), e.t);
  }

  lemma OuterKeeps(w: Setup, s: State, s': State)
    requires AllKept(w, s) && LaunchesOne(s, s') && s'.threads[..|s.threads|] == s.threads
    requires s'.refs == s.refs && s'.outputs == s.outputs
    ensures AllKept(w, s')
  {
    forall k | 0 <= k < |s'.threads| ensures Kept(w, s', s'.threads[k]) {
      if k < |s.threads| {
        assert s'.threads[k] == s'.threads[..|s.threads|][k];
        assert Kept(w, s, s.threads[k]);
      }
    }
  }

  lemma StepKeeps(w: Setup, s: State, e: Event)
    requires Counts(w, s) && AllKept(w, s) && Enabled(w, s, e)
    ensures AllKept(w, Apply(w, s, e))
  {
    if e.Evict? { EvictKeeps(w, s, e.t); }
    else if e.Swap? || e.Arrive? { SharedKeeps(w, s, e); }
    else if e.Launch? || e.Cancel? { OuterKeeps(w, s, Apply(w, s, e)); }
    else { LocalKeeps(w, s, e); }
  }

  lemma {:induction false} RunCounts(w: Setup, es: seq<Event>)
    requires Tracks(w) && Possible(w, es)
    ensures Counts(w, After(w, es)) && AllKept(w, After(w, es))
    decreases |es|
  {
    if es != [] {
      RunCounts(w, es[..|es|-1]);
      StepCounts(w, After(w, es[..|es|-1]), es[|es|-1]);
      StepKeeps(w, After(w, es[..|es|-1]), es[|es|-1]);
    }
  }

  // ---------------------------------------------------------------------------
  // What eviction guarantees

  lemma {:induction false} AtMostOnePerNode(f: Thread -> bool, threads: seq<Thread>, nodes: set<NodeId>)
    requires forall j, k :: 0 <= j < k < |threads| ==> threads[j].node != threads[k].node
    requires forall k :: 0 <= k < |threads| && f(threads[k]) ==> threads[k].node in nodes
    ensures Tally(f, threads) <= |nodes|
    decreases |threads|
  {
    if threads != [] {
      var n := |threads| - 1;
      if f(threads[n]) {
        AtMostOnePerNode(f, threads[..n], nodes - {threads[n].node});
      } else {
        AtMostOnePerNode(f, threads[..n], nodes);
      }
    }
  }

  /** Only readers release a key. */
  lemma ReleasersRead(w: Setup, p: NodeId, t: Thread)
    requires Tracks(w) && DistinctKeys(w.g) && Tracked(w.g, p) && Released(w, OutputKey(w.g, p))(t)
    ensures t.node in Readers(w.g, p)
  {
    var key := OutputKey(w.g, p);
    assert ListsKeys(w.g, w.consumers, w.g.nodes.Keys, t.node);
    assert key in Keys(w, t.node) && At(w.consumers, t.node) == Keys(w, t.node);
    assert ReadsKey(w.g, w.g.nodes.Keys, t.node, key);
  }

  ghost predicate HasReleased(w: Setup, s: State, c: NodeId, key: string) {
    exists k :: 0 <= k < |s.threads| && s.threads[k].node == c && Released(w, key)(s.threads[k])
  }

  /** A count that has run out was released by every reader. */
  lemma ExhaustedMeansAllReleased(w: Setup, s: State, p: NodeId, c: NodeId)
    requires Tracks(w) && DistinctKeys(w.g) && Counts(w, s) && OneEach(s)
    requires Tracked(w.g, p) && c in Readers(w.g, p)
    requires OutputKey(w.g, p) in s.refs && s.refs[OutputKey(w.g, p)] <= 0
    ensures HasReleased(w, s, c, OutputKey(w.g, p))
  {
    var key := OutputKey(w.g, p);
    if !HasReleased(w, s, c, key) {
      forall k | 0 <= k < |s.threads| && Released(w, key)(s.threads[k]) ensures s.threads[k].node in Readers(w.g, p) - {c} {
        ReleasersRead(w, p, s.threads[k]);
      }
      AtMostOnePerNode(Released(w, key), s.threads, Readers(w.g, p) - {c});
    }
  }

  /** A stored output is missing only after every node with an edge from its producer, or with its
      key in its config, has completed. */
  lemma EvictedOnlyAfterAllReaders(w: Setup, es: seq<Event>, k: nat, c: NodeId)
    requires Runnable(w.g) && Tracks(w) && DistinctKeys(w.g) && Possible(w, es)
    requires var s := After(w, es);
      k < |s.threads| && Fired(s.threads[k].pc).Some? && OutputKey(w.g, s.threads[k].node) !in s.outputs
    requires c in Readers(w.g, After(w, es).threads[k].node)
    ensures HasReleased(w, After(w, es), c, OutputKey(w.g, After(w, es).threads[k].node))
  {
    RunOneEach(w, es);
    RunCounts(w, es);
    MissingMeansReleased(w, After(w, es), k, c);
  }

  lemma RunOneEach(w: Setup, es: seq<Event>)
    requires Runnable(w.g) && Possible(w, es)
    ensures OneEach(After(w, es))
    ensures forall k :: 0 <= k < |After(w, es).threads| ==> After(w, es).threads[k].node in w.g.nodes
  {
    RunInv(w, es);
    OneGoroutineEach(w, After(w, es));
    forall k | 0 <= k < |After(w, es).threads| ensures After(w, es).threads[k].node in w.g.nodes {
      assert InRange(w.g, After(w, es).threads[k]);
    }
  }

  lemma MissingMeansReleased(w: Setup, s: State, k: nat, c: NodeId)
    requires Tracks(w) && DistinctKeys(w.g) && OneEach(s) && Counts(w, s) && AllKept(w, s)
    requires k < |s.threads| && s.threads[k].node in w.g.nodes && Fired(s.threads[k].pc).Some?
    requires OutputKey(w.g, s.threads[k].node) !in s.outputs && c in Readers(w.g, s.threads[k].node)
    ensures HasReleased(w, s, c, OutputKey(w.g, s.threads[k].node))
  {
    assert Kept(w, s, s.threads[k]);
    CountedIsTracked(w, s.threads[k].node);
    ExhaustedMeansAllReleased(w, s, s.threads[k].node, c);
  }

  lemma CountedIsTracked(w: Setup, p: NodeId)
    requires Tracks(w) && DistinctKeys(w.g) && OutputKey(w.g, p) in w.refs
    ensures p in w.g.nodes ==> Tracked(w.g, p)
  {
    var q :| q in w.g.nodes.Keys && Tracked(w.g, q) && OutputKey(w.g, q) == OutputKey(w.g, p);
  }

  /** While a node is waiting to run, running or retrying, every output it may read that has been
      stored is there. */
  lemma RunningReadersSeeOutputs(w: Setup, es: seq<Event>, k: nat, m: nat)
    requires Runnable(w.g) && Tracks(w) && DistinctKeys(w.g) && Possible(w, es)
    requires var s := After(w, es);
      && k < |s.threads| && Fired(s.threads[k].pc).Some?
      && m < |s.threads| && (s.threads[m].pc.Ready? || s.threads[m].pc.Running?)
      && s.threads[m].node in Readers(w.g, s.threads[k].node)
    ensures OutputKey(w.g, After(w, es).threads[k].node) in After(w, es).outputs
  {
    var s := After(w, es);
    RunOneEach(w, es);
    NotReleasedYet(w, s, m, OutputKey(w.g, s.threads[k].node));
    if OutputKey(w.g, s.threads[k].node) !in s.outputs { EvictedOnlyAfterAllReaders(w, es, k, s.threads[m].node); }
  }

  /** A node that has not completed has released nothing. */
  lemma NotReleasedYet(w: Setup, s: State, m: nat, key: string)
    requires OneEach(s) && m < |s.threads| && (s.threads[m].pc.Ready? || s.threads[m].pc.Running?)
    ensures !HasReleased(w, s, s.threads[m].node, key)
  {
    forall j | 0 <= j < |s.threads| && s.threads[j].node == s.threads[m].node ensures !Released(w, key)(s.threads[j]) {
      assert !(j < m) && !(m < j);
    }
  }

  /** The outputs of terminal nodes, and all outputs of a retaining context, are never evicted. */
  lemma TerminalOutputsStay(w: Setup, es: seq<Event>, k: nat)
    requires Runnable(w.g) && Tracks(w) && DistinctKeys(w.g) && Possible(w, es)
    requires var s := After(w, es);
      && k < |s.threads| && Fired(s.threads[k].pc).Some?
      && (s.threads[k].node in w.g.terminalNodes || w.retain)
    ensures OutputKey(w.g, After(w, es).threads[k].node) in After(w, es).outputs
  {
    var s := After(w, es);
    RunOneEach(w, es);
    RunCounts(w, es);
    assert Kept(w, s, s.threads[k]);
    if OutputKey(w.g, s.threads[k].node) in w.refs { CountedIsTracked(w, s.threads[k].node); }
  }
}
