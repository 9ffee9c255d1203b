/** `ExecuteGraph` of internal/engine/executor.go as a transition system. Every atomic access of
    a node goroutine to shared state is one step, and steps of different goroutines interleave
    freely: the compare-and-swap on a group flag and the addition to the arrival counter are
    separate, and so are recording an error and cancelling. */
module Executor {
  import opened Common
  import opened WorkflowGraph

  // ---------------------------------------------------------------------------
  // One node's own part: dispatch, error routing and per-edge retries

  /** What `dispatchNode` or `retryNode` returns: an output name, or a structural error. */
  datatype Attempt = Output(name: string) | Structural

  datatype Outcome = Follow(output: string) | Fail

  ghost predicate HasRetry(g: CompiledGraph, u: NodeId, v: NodeId) {
    (u, "error", v) in g.retries && g.retries[(u, "error", v)].Some?
  }

  /** Try the retry policies of the error edges in order; `tries[k]` is what `retryNode` returns
      under the policy of the k-th error edge. */
  ghost function Retried(g: CompiledGraph, u: NodeId, targets: seq<NodeId>, tries: seq<Attempt>): Outcome
    requires |tries| == |targets|
  {
    if targets == [] then Follow("error")
    else if !HasRetry(g, u, targets[0]) then Retried(g, u, targets[1..], tries[1..])
    else match tries[0]
      case Structural => Fail
      case Output(o) => if o != "error" then Follow(o) else Retried(g, u, targets[1..], tries[1..])
  }

  /** The outcome of a node whose first dispatch returned `first`. */
  ghost function Settled(g: CompiledGraph, u: NodeId, first: Attempt, tries: seq<Attempt>): Outcome
    requires |tries| == |Targets(g, u, "error")|
  {
    match first
    case Structural => Fail
    case Output(o) =>
      if o != "error" then Follow(o)
      else if Targets(g, u, "error") == [] then Fail
      else Retried(g, u, Targets(g, u, "error"), tries)
  }

  /** The k-th error edge has a retry policy under which the node stopped returning "error". */
  ghost predicate Decisive(g: CompiledGraph, u: NodeId, targets: seq<NodeId>, tries: seq<Attempt>, k: nat) {
    k < |targets| && k < |tries| && HasRetry(g, u, targets[k]) && tries[k] != Output("error")
  }

  /** The first decisive retry decides the outcome; without one the error edges are followed. */
  lemma {:induction false} FirstDecisiveRetryDecides(g: CompiledGraph, u: NodeId, targets: seq<NodeId>, tries: seq<Attempt>)
    requires |tries| == |targets|
    ensures (forall k: nat :: !Decisive(g, u, targets, tries, k)) ==> Retried(g, u, targets, tries) == Follow("error")
    ensures forall k: nat :: Decisive(g, u, targets, tries, k) && (forall j: nat :: j < k ==> !Decisive(g, u, targets, tries, j)) ==>
      Retried(g, u, targets, tries) == if tries[k].Structural? then Fail else Follow(tries[k].name)
  {
    if targets != [] {
      FirstDecisiveRetryDecides(g, u, targets[1..], tries[1..]);
      forall k: nat ensures Decisive(g, u, targets, tries, k + 1) == Decisive(g, u, targets[1..], tries[1..], k) {}
      forall k: nat | Decisive(g, u, targets, tries, k) && (forall j: nat :: j < k ==> !Decisive(g, u, targets, tries, j))
        ensures Retried(g, u, targets, tries) == if tries[k].Structural? then Fail else Follow(tries[k].name)
      {
        if k > 0 {
          assert !Decisive(g, u, targets, tries, 0);
          assert Decisive(g, u, targets[1..], tries[1..], k - 1);
          forall j: nat | j < k - 1 ensures !Decisive(g, u, targets[1..], tries[1..], j) {
            assert !Decisive(g, u, targets, tries, j + 1);
          }
          assert tries[k] == tries[1..][k-1];
        }
      }
      if forall k: nat :: !Decisive(g, u, targets, tries, k) {
        assert !Decisive(g, u, targets, tries, 0);
        forall k: nat ensures !Decisive(g, u, targets[1..], tries[1..], k) {
          assert !Decisive(g, u, targets, tries, k + 1);
        }
      }
    }
  }

  // ---------------------------------------------------------------------------
  // State

  datatype Pc =
    | Ready                                   // launched, context not yet checked
    | Running                                 // inside dispatchNode or retryNode
    | Evicting(output: string, index: nat)    // inside NodeCompleted
    | Following(output: string, index: nat)   // about to swap the flag of target `index`
    | Arriving(output: string, index: nat)    // flag swapped, counter not yet bumped
    | Failing                                 // error recorded, not yet cancelled
    | Failed
    | Aborted                                 // found the context cancelled

  datatype Thread = Thread(node: NodeId, pc: Pc)

  /** The compiled graph and the eviction tracker built for it. */
  datatype Setup = Setup(
    g: CompiledGraph,
    consumers: map<NodeId, seq<string>>,
    refs: map<string, int>,
    retain: bool)

  datatype State = State(
    launched: nat,                    // entry nodes launched by the calling goroutine
    threads: seq<Thread>,             // every goroutine ever launched
    seen: map<NodeId, seq<bool>>,     // groupSeen
    arrived: map<NodeId, nat>,
    cancelled: bool,
    firstErr: Option<NodeId>,
    refs: map<string, int>,
    outputs: set<string>)

  function GroupCount(g: CompiledGraph, v: NodeId): nat {
    if v in g.joinGroupCount then g.joinGroupCount[v] else 0
  }

  /** `graph.JoinGroups[v][u]`, where a missing entry reads as 0. */
  function Group(g: CompiledGraph, v: NodeId, u: NodeId): nat {
    if v in g.joinGroups && u in g.joinGroups[v] then g.joinGroups[v][u] else 0
  }

  /** The key under which a node's output is stored. */
  function OutputKey(g: CompiledGraph, u: NodeId): string {
    if u in g.nodes && g.nodes[u].alias != "" then g.nodes[u].alias else u
  }

  function Keys(w: Setup, u: NodeId): seq<string> {
    if u in w.consumers then w.consumers[u] else []
  }

  function Init(w: Setup): State {
    State(0, [],
          map v | v in w.g.nodes :: seq(GroupCount(w.g, v), _ => false),
          map v | v in w.g.nodes :: 0,
          false, None, w.refs, {})
  }

  // ---------------------------------------------------------------------------
  // Steps

  datatype Event =
    | Launch                                         // dispatch the next entry node
    | Cancel                                         // deadline or parent cancellation
    | Check(t: nat)
    | Settle(t: nat, first: Attempt, tries: seq<Attempt>)
    | Evict(t: nat)
    | Swap(t: nat)
    | Arrive(t: nat)
    | Abort(t: nat)

  ghost predicate Enabled(w: Setup, s: State, e: Event) {
    match e
    case Launch => s.launched < |w.g.entryNodes|
    case Cancel => !s.cancelled
    case Check(t) => t < |s.threads| && s.threads[t].pc.Ready?
    case Settle(t, first, tries) =>
      t < |s.threads| && s.threads[t].pc.Running? && |tries| == |Targets(w.g, s.threads[t].node, "error")|
    case Evict(t) => t < |s.threads| && s.threads[t].pc.Evicting?
    case Swap(t) =>
      && t < |s.threads| && s.threads[t].pc.Following?
      && s.threads[t].pc.index < |Targets(w.g, s.threads[t].node, s.threads[t].pc.output)|
    case Arrive(t) =>
      && t < |s.threads| && s.threads[t].pc.Arriving?
      && s.threads[t].pc.index < |Targets(w.g, s.threads[t].node, s.threads[t].pc.output)|
    case Abort(t) => t < |s.threads| && s.threads[t].pc.Failing?
  }

  function Move(s: State, t: nat, pc: Pc): State
    requires t < |s.threads|
  {
    s.(threads := s.threads[t := s.threads[t].(pc := pc)])
  }

  ghost function Apply(w: Setup, s: State, e: Event): State
    requires Enabled(w, s, e)
  {
    match e
    case Launch =>
      s.(launched := s.launched + 1, threads := s.threads + [Thread(w.g.entryNodes[s.launched], Ready)])
    case Cancel => s.(cancelled := true)
    case Check(t) => Move(s, t, if s.cancelled then Aborted else Running)
    case Settle(t, first, tries) => DoSettle(w, s, t, Settled(w.g, s.threads[t].node, first, tries))
    case Evict(t) => DoEvict(w, s, t)
    case Swap(t) => DoSwap(w, s, t)
    case Arrive(t) => DoArrive(w, s, t)
    case Abort(t) => Move(s, t, Failed).(cancelled := true)
  }

  function DoSettle(w: Setup, s: State, t: nat, outcome: Outcome): State
    requires t < |s.threads|
  {
    match outcome
    case Fail => Move(s, t, Failing).(firstErr := if s.firstErr.None? then Some(s.threads[t].node) else s.firstErr)
    case Follow(o) => Move(s, t, Evicting(o, 0)).(outputs := s.outputs + {OutputKey(w.g, s.threads[t].node)})
  }

  /** One decrement of `NodeCompleted`, with the eviction it may trigger; after the last key,
      go on to follow the fired output. */
  function DoEvict(w: Setup, s: State, t: nat): State
    requires t < |s.threads| && s.threads[t].pc.Evicting?
  {
    var pc := s.threads[t].pc;
    var keys := Keys(w, s.threads[t].node);
    if pc.index >= |keys| then Move(s, t, Following(pc.output, 0))
    else
      var key := keys[pc.index];
      var next := Move(s, t, Evicting(pc.output, pc.index + 1));
      if key !in s.refs then next
      else
        var left := s.refs[key] - 1;
        next.(refs := s.refs[key := left],
              outputs := if left == 0 && !w.retain then s.outputs - {key} else s.outputs)
  }

  function Flag(s: State, v: NodeId, i: nat): bool {
    v in s.seen && i < |s.seen[v]| && s.seen[v][i]
  }

  /** `groupSeen[target][group].CompareAndSwap(false, true)`. */
  function DoSwap(w: Setup, s: State, t: nat): State
    requires t < |s.threads| && s.threads[t].pc.Following?
    requires s.threads[t].pc.index < |Targets(w.g, s.threads[t].node, s.threads[t].pc.output)|
  {
    var pc, u := s.threads[t].pc, s.threads[t].node;
    var v := Targets(w.g, u, pc.output)[pc.index];
    var group := Group(w.g, v, u);
    if v !in s.seen || group >= |s.seen[v]| || s.seen[v][group] then Move(s, t, Following(pc.output, pc.index + 1))
    else Move(s, t, Arriving(pc.output, pc.index)).(seen := s.seen[v := s.seen[v][group := true]])
  }

  /** `arrived[target].Add(1)`, dispatching the target when the count is complete. */
  function DoArrive(w: Setup, s: State, t: nat): State
    requires t < |s.threads| && s.threads[t].pc.Arriving?
    requires s.threads[t].pc.index < |Targets(w.g, s.threads[t].node, s.threads[t].pc.output)|
  {
    var pc, u := s.threads[t].pc, s.threads[t].node;
    var v := Targets(w.g, u, pc.output)[pc.index];
    var now := (if v in s.arrived then s.arrived[v] else 0) + 1;
    var next := Move(s, t, Following(pc.output, pc.index + 1)).(arrived := s.arrived[v := now]);
    if now == GroupCount(w.g, v) then next.(threads := next.threads + [Thread(v, Ready)]) else next
  }

  // ---------------------------------------------------------------------------
  // Runs

  /** Every step of the sequence is enabled when it is taken. */
  ghost predicate Possible(w: Setup, es: seq<Event>)
    decreases |es|, 0
  {
    es == [] || (Possible(w, es[..|es|-1]) && Enabled(w, After(w, es[..|es|-1]), es[|es|-1]))
  }

  /** The state a possible sequence of steps leads to. */
  ghost function After(w: Setup, es: seq<Event>): State
    requires Possible(w, es)
    decreases |es|, 1
  {
    if es == [] then Init(w) else Apply(w, After(w, es[..|es|-1]), es[|es|-1])
  }

  ghost predicate Finished(g: CompiledGraph, t: Thread) {
    || t.pc.Failed? || t.pc.Aborted?
    || (t.pc.Following? && t.pc.index >= |Targets(g, t.node, t.pc.output)|)
  }

  /** `wg.Wait()` has returned. */
  ghost predicate Quiescent(w: Setup, s: State) {
    s.launched == |w.g.entryNodes| && forall t :: t in s.threads ==> Finished(w.g, t)
  }

  /** The output a goroutine has chosen to follow, if it got that far. */
  function Fired(pc: Pc): Option<string> {
    if pc.Evicting? || pc.Following? || pc.Arriving? then Some(pc.output) else None
  }

  /** How many targets of the fired output have had their flag swapped or found set. */
  function Passed(pc: Pc): nat {
    match pc
    case Following(_, k) => k
    case Arriving(_, k) => k + 1
    case _ => 0
  }

  /** Nodes for which a goroutine has been launched. */
  function Dispatched(s: State): set<NodeId> {
    set t | t in s.threads :: t.node
  }
}
