/** What every step of the executor keeps: flags, counters and goroutines agree. */
module ExecutorInvariant {
  import opened Common
  import opened WorkflowGraph
  import opened Executor

  ghost function OnNode(v: NodeId): Thread -> bool {
    (t: Thread) => t.node == v
  }

  /** Goroutines that swapped a flag of `v` and have not yet bumped its counter. */
  ghost function ArrivingAt(g: CompiledGraph, v: NodeId): Thread -> bool {
    (t: Thread) => t.pc.Arriving? && t.pc.index < |Targets(g, t.node, t.pc.output)|
                   && Targets(g, t.node, t.pc.output)[t.pc.index] == v
  }

  ghost function IsSet(): bool -> bool {
    (b: bool) => b
  }

  ghost function Launched(w: Setup, s: State): seq<NodeId> {
    if s.launched <= |w.g.entryNodes| then w.g.entryNodes[..s.launched] else []
  }

  ghost predicate IsEntry(g: CompiledGraph, v: NodeId) {
    Inbound(g, v) == []
  }

  /** Flags, counter and goroutines of one node. */
  ghost predicate Balanced(w: Setup, s: State, v: NodeId) {
    && v in s.seen && v in s.arrived
    && |s.seen[v]| == GroupCount(w.g, v)
    && Tally(IsSet(), s.seen[v]) == s.arrived[v] + Tally(ArrivingAt(w.g, v), s.threads)
    && Tally(OnNode(v), s.threads) ==
       if IsEntry(w.g, v) then (if v in Launched(w, s) then 1 else 0)
       else (if s.arrived[v] == GroupCount(w.g, v) then 1 else 0)
  }

  /** A goroutine is for a known node and its positions are in range. */
  ghost predicate InRange(g: CompiledGraph, t: Thread) {
    && t.node in g.nodes
    && (t.pc.Following? ==> t.pc.index <= |Targets(g, t.node, t.pc.output)|)
    && (t.pc.Arriving? ==> t.pc.index < |Targets(g, t.node, t.pc.output)|)
  }

  /** The goroutine has swapped, or found set, the flag it owes to `v`. */
  ghost predicate Delivered(g: CompiledGraph, t: Thread, v: NodeId) {
    exists k :: 0 <= k < Passed(t.pc) && k < |Targets(g, t.node, Fired(t.pc).value)|
                && Targets(g, t.node, Fired(t.pc).value)[k] == v
  }

  /** A goroutine's deliveries have set the flags they should. */
  ghost predicate FlagsRaised(g: CompiledGraph, s: State, t: Thread) {
    forall v :: Delivered(g, t, v) ==> Flag(s, v, Group(g, v, t.node))
  }

  /** A raised flag was raised by a delivery of a source in its group. */
  ghost predicate Caused(g: CompiledGraph, s: State, v: NodeId, i: nat) {
    exists k :: 0 <= k < |s.threads| && Delivered(g, s.threads[k], v) && Group(g, v, s.threads[k].node) == i
  }

  ghost predicate Shaped(w: Setup, s: State) {
    && s.launched <= |w.g.entryNodes|
    && s.seen.Keys == w.g.nodes.Keys && s.arrived.Keys == w.g.nodes.Keys
    && forall k :: 0 <= k < |s.threads| ==> InRange(w.g, s.threads[k])
  }

  ghost predicate AllBalanced(w: Setup, s: State) {
    forall v :: v in w.g.nodes ==> Balanced(w, s, v)
  }

  ghost predicate FlagsExplained(w: Setup, s: State) {
    && (forall k :: 0 <= k < |s.threads| ==> FlagsRaised(w.g, s, s.threads[k]))
    && (forall v, i: nat :: Flag(s, v, i) ==> Caused(w.g, s, v, i))
  }

  ghost predicate Inv(w: Setup, s: State) {
    Shaped(w, s) && AllBalanced(w, s) && FlagsExplained(w, s)
  }

  // ---------------------------------------------------------------------------
  // Reading the graph

  /** A followed edge leads to a known join, and its group is within the join's flags. */
  lemma TargetIsJoin(g: CompiledGraph, u: NodeId, o: string, v: NodeId)
    requires Runnable(g) && v in Targets(g, u, o)
    ensures v in g.nodes && !IsEntry(g, v)
    ensures v in g.joinGroups && u in g.joinGroups[v] && Group(g, v, u) < GroupCount(g, v)
  {
    assert u in Inbound(g, v);
    assert Grouped(g, v);
    assert u in Elements(Inbound(g, v));
  }

  // ---------------------------------------------------------------------------
  // The initial state

  lemma InitInv(w: Setup)
    requires Runnable(w.g)
    ensures Inv(w, Init(w))
  {
    forall v | v in w.g.nodes ensures Balanced(w, Init(w), v) {
      assert Grouped(w.g, v);
      InitBalanced(w, v);
    }
  }

  lemma InitBalanced(w: Setup, v: NodeId)
    requires v in w.g.nodes && (IsEntry(w.g, v) <==> GroupCount(w.g, v) == 0)
    ensures Balanced(w, Init(w), v)
  {
    TallyNone(IsSet(), Init(w).seen[v]);
  }

  // ---------------------------------------------------------------------------
  // Steps that touch neither flags nor counters

  ghost predicate SameCounters(s: State, s': State) {
    s'.launched == s.launched && s'.seen == s.seen && s'.arrived == s.arrived
  }

  /** Goroutine `t` moves on its own, before any delivery. */
  lemma QuietMove(w: Setup, s: State, s': State, t: nat, pc: Pc)
    requires Inv(w, s) && t < |s.threads| && SameCounters(s, s')
    requires s'.threads == s.threads[t := Thread(s.threads[t].node, pc)]
    requires Passed(s.threads[t].pc) == 0 && Passed(pc) == 0 && InRange(w.g, Thread(s.threads[t].node, pc))
    ensures Inv(w, s')
  {
    forall v | v in w.g.nodes ensures Balanced(w, s', v) {
      assert Balanced(w, s, v);
      QuietBalanced(w, s, s', t, pc, v);
    }
    FlagsStay(w, s, s');
  }

  lemma QuietBalanced(w: Setup, s: State, s': State, t: nat, pc: Pc, v: NodeId)
    requires Balanced(w, s, v) && t < |s.threads| && SameCounters(s, s')
    requires s'.threads == s.threads[t := Thread(s.threads[t].node, pc)]
    requires !s.threads[t].pc.Arriving? && !pc.Arriving?
    ensures Balanced(w, s', v)
  {
    TallyUpdate(ArrivingAt(w.g, v), s.threads, t, s'.threads[t]);
    TallyUpdate(OnNode(v), s.threads, t, s'.threads[t]);
  }

  /** Deliveries only accumulate. */
  ghost predicate ThreadsGrow(g: CompiledGraph, s: State, s': State) {
    |s.threads| <= |s'.threads| && forall k, v :: 0 <= k < |s.threads| && Delivered(g, s.threads[k], v) ==>
      s'.threads[k].node == s.threads[k].node && Delivered(g, s'.threads[k], v)
  }

  lemma CausesStay(g: CompiledGraph, s: State, s': State, v: NodeId, i: nat)
    requires ThreadsGrow(g, s, s') && Caused(g, s, v, i)
    ensures Caused(g, s', v, i)
  {
    var k :| 0 <= k < |s.threads| && Delivered(g, s.threads[k], v) && Group(g, v, s.threads[k].node) == i;
    assert Delivered(g, s'.threads[k], v);
  }

  /** Nothing new delivered and no flag changed. */
  lemma FlagsStay(w: Setup, s: State, s': State)
    requires FlagsExplained(w, s) && s'.seen == s.seen && |s.threads| <= |s'.threads|
    requires forall k :: 0 <= k < |s.threads| ==>
      s'.threads[k] == s.threads[k] || (s'.threads[k].node == s.threads[k].node && Passed(s'.threads[k].pc) == Passed(s.threads[k].pc)
                                        && (Passed(s.threads[k].pc) > 0 ==> Fired(s'.threads[k].pc) == Fired(s.threads[k].pc)))
    requires forall k :: |s.threads| <= k < |s'.threads| ==> Passed(s'.threads[k].pc) == 0
    ensures FlagsExplained(w, s')
  {
    forall k, v | 0 <= k < |s.threads|
      ensures Delivered(w.g, s'.threads[k], v) <==> Delivered(w.g, s.threads[k], v)
    {}
    forall k | 0 <= k < |s'.threads| ensures FlagsRaised(w.g, s', s'.threads[k]) {
      if k < |s.threads| { assert FlagsRaised(w.g, s, s.threads[k]); }
    }
    assert ThreadsGrow(w.g, s, s');
    forall v, i: nat | Flag(s', v, i) ensures Caused(w.g, s', v, i) {
      assert Flag(s, v, i);
      CausesStay(w.g, s, s', v, i);
    }
  }

  // ---------------------------------------------------------------------------
  // Launching an entry node

  lemma LaunchBalanced(w: Setup, s: State, s': State, x: NodeId, v: NodeId)
    requires Balanced(w, s, v) && s'.seen == s.seen && s'.arrived == s.arrived
    requires s'.threads == s.threads + [Thread(x, Ready)]
    requires IsEntry(w.g, x) && x !in Launched(w, s) && Launched(w, s') == Launched(w, s) + [x]
    ensures Balanced(w, s', v)
  {
    TallyAppend(ArrivingAt(w.g, v), s.threads, Thread(x, Ready));
    TallyAppend(OnNode(v), s.threads, Thread(x, Ready));
  }

  lemma EntryIsNew(w: Setup, s: State)
    requires EntriesListed(w.g) && s.launched < |w.g.entryNodes|
    ensures var x := w.g.entryNodes[s.launched];
            x !in Launched(w, s) && x in w.g.nodes && IsEntry(w.g, x)
  {
    assert w.g.entryNodes[s.launched] in w.g.entryNodes;
  }

  lemma LaunchInv(w: Setup, s: State, s': State, x: NodeId)
    requires Inv(w, s) && s.launched < |w.g.entryNodes| && x == w.g.entryNodes[s.launched]
    requires x in w.g.nodes && IsEntry(w.g, x) && x !in Launched(w, s)
    requires s'.launched == s.launched + 1 && s'.seen == s.seen && s'.arrived == s.arrived
    requires s'.threads == s.threads + [Thread(x, Ready)]
    ensures Inv(w, s')
  {
    LaunchAllBalanced(w, s, s', x);
    FlagsStay(w, s, s');
  }

  lemma LaunchAllBalanced(w: Setup, s: State, s': State, x: NodeId)
    requires AllBalanced(w, s) && s.launched < |w.g.entryNodes| && x == w.g.entryNodes[s.launched]
    requires x in w.g.nodes && IsEntry(w.g, x) && x !in Launched(w, s)
    requires s'.launched == s.launched + 1 && s'.seen == s.seen && s'.arrived == s.arrived
    requires s'.threads == s.threads + [Thread(x, Ready)]
    ensures AllBalanced(w, s')
  {
    assert Launched(w, s') == Launched(w, s) + [x];
    forall v | v in w.g.nodes ensures Balanced(w, s', v) {
      assert Balanced(w, s, v);
      LaunchBalanced(w, s, s', x, v);
    }
  }

  // ---------------------------------------------------------------------------
  // Swapping a flag

  ghost function NextTarget(g: CompiledGraph, t: Thread): NodeId
    requires (t.pc.Following? || t.pc.Arriving?) && t.pc.index < |Targets(g, t.node, t.pc.output)|
  {
    Targets(g, t.node, t.pc.output)[t.pc.index]
  }

  /** Goroutine `t` is about to swap the flag of its next target. */
  ghost predicate AtSwap(w: Setup, s: State, t: nat) {
    && t < |s.threads| && s.threads[t].pc.Following?
    && s.threads[t].pc.index < |Targets(w.g, s.threads[t].node, s.threads[t].pc.output)|
  }

  /** The swap of goroutine `t` found the flag set. */
  ghost predicate SwapLost(w: Setup, s: State, s': State, t: nat) {
    && AtSwap(w, s, t) && SameCounters(s, s')
    && s'.threads == s.threads[t := Thread(s.threads[t].node, Following(s.threads[t].pc.output, s.threads[t].pc.index + 1))]
    && var v := NextTarget(w.g, s.threads[t]); Flag(s, v, Group(w.g, v, s.threads[t].node))
  }

  lemma SwapLostAllBalanced(w: Setup, s: State, s': State, t: nat)
    requires AllBalanced(w, s) && SwapLost(w, s, s', t)
    ensures AllBalanced(w, s')
  {
    forall v | v in w.g.nodes ensures Balanced(w, s', v) {
      assert Balanced(w, s, v);
      QuietBalanced(w, s, s', t, s'.threads[t].pc, v);
    }
  }

  lemma SwapLostExplained(w: Setup, s: State, s': State, t: nat)
    requires FlagsExplained(w, s) && SwapLost(w, s, s', t)
    ensures FlagsExplained(w, s')
  {
    var th, th' := s.threads[t], s'.threads[t];
    forall v ensures Delivered(w.g, th', v) <==> Delivered(w.g, th, v) || v == NextTarget(w.g, th) {
      DeliversNext(w.g, th, th', v);
    }
    DeliveryExplained(w, s, s', t);
  }

  /** The swap found the flag set: the goroutine goes on to its next target. */
  lemma SwapLostInv(w: Setup, s: State, s': State, t: nat)
    requires Inv(w, s) && SwapLost(w, s, s', t)
    ensures Inv(w, s')
  {
    SwapLostShaped(w, s, s', t);
    SwapLostAllBalanced(w, s, s', t);
    SwapLostExplained(w, s, s', t);
  }

  lemma SwapLostShaped(w: Setup, s: State, s': State, t: nat)
    requires Shaped(w, s) && SwapLost(w, s, s', t)
    ensures Shaped(w, s')
  {
    assert InRange(w.g, s.threads[t]);
  }

  /** The swap of goroutine `t` set flag `group` of `v`. */
  ghost predicate SwapWon(w: Setup, s: State, s': State, t: nat, v: NodeId, group: nat) {
    && AtSwap(w, s, t)
    && v == NextTarget(w.g, s.threads[t]) && v in s.seen && group == Group(w.g, v, s.threads[t].node)
    && group < |s.seen[v]| && !s.seen[v][group]
    && s'.threads == s.threads[t := Thread(s.threads[t].node, Arriving(s.threads[t].pc.output, s.threads[t].pc.index))]
    && s'.seen == s.seen[v := s.seen[v][group := true]] && s'.arrived == s.arrived && s'.launched == s.launched
  }

  lemma SwapWonBalanced(w: Setup, s: State, s': State, t: nat, v: NodeId, group: nat, x: NodeId)
    requires Balanced(w, s, x) && SwapWon(w, s, s', t, v, group)
    ensures Balanced(w, s', x)
  {
    TallyUpdate(ArrivingAt(w.g, x), s.threads, t, s'.threads[t]);
    TallyUpdate(OnNode(x), s.threads, t, s'.threads[t]);
    TallyUpdate(IsSet(), s.seen[v], group, true);
  }

  lemma SwapWonExplained(w: Setup, s: State, s': State, t: nat, v: NodeId, group: nat)
    requires FlagsExplained(w, s) && SwapWon(w, s, s', t, v, group)
    ensures FlagsExplained(w, s')
  {
    var th, th' := s.threads[t], s'.threads[t];
    forall x ensures Delivered(w.g, th', x) <==> Delivered(w.g, th, x) || x == NextTarget(w.g, th) {
      DeliversNext(w.g, th, th', x);
    }
    DeliveryExplained(w, s, s', t);
  }

  /** The swap set the flag: the goroutine now owes the counter one arrival. */
  lemma SwapWonInv(w: Setup, s: State, s': State, t: nat, v: NodeId, group: nat)
    requires Inv(w, s) && SwapWon(w, s, s', t, v, group)
    ensures Inv(w, s')
  {
    SwapWonShaped(w, s, s', t, v, group);
    SwapWonExplained(w, s, s', t, v, group);
    SwapWonAllBalanced(w, s, s', t, v, group);
  }

  lemma SwapWonShaped(w: Setup, s: State, s': State, t: nat, v: NodeId, group: nat)
    requires Shaped(w, s) && SwapWon(w, s, s', t, v, group)
    ensures Shaped(w, s')
  {
    assert InRange(w.g, s.threads[t]);
  }

  lemma SwapWonAllBalanced(w: Setup, s: State, s': State, t: nat, v: NodeId, group: nat)
    requires AllBalanced(w, s) && SwapWon(w, s, s', t, v, group)
    ensures AllBalanced(w, s')
  {
    forall x | x in w.g.nodes ensures Balanced(w, s', x) {
      assert Balanced(w, s, x);
      SwapWonBalanced(w, s, s', t, v, group, x);
    }
  }

  /** Moving past a target delivers to exactly that target. */
  lemma DeliversNext(g: CompiledGraph, th: Thread, th': Thread, v: NodeId)
    requires th.pc.Following? && th.pc.index < |Targets(g, th.node, th.pc.output)|
    requires th'.node == th.node && Fired(th'.pc) == Fired(th.pc) && Passed(th'.pc) == th.pc.index + 1
    ensures Delivered(g, th', v) <==> Delivered(g, th, v) || v == NextTarget(g, th)
  {
    if v == NextTarget(g, th) { assert Targets(g, th'.node, Fired(th'.pc).value)[th.pc.index] == v; }
  }

  /** One goroutine delivered to one more target, whose flag is now set. */
  lemma DeliveryExplained(w: Setup, s: State, s': State, t: nat)
    requires FlagsExplained(w, s) && t < |s.threads| == |s'.threads|
    requires s.threads[t].pc.Following? && s.threads[t].pc.index < |Targets(w.g, s.threads[t].node, s.threads[t].pc.output)|
    requires s'.threads == s.threads[t := s'.threads[t]] && s'.threads[t].node == s.threads[t].node
    requires forall v :: Delivered(w.g, s'.threads[t], v) <==>
      Delivered(w.g, s.threads[t], v) || v == NextTarget(w.g, s.threads[t])
    requires var v, u := NextTarget(w.g, s.threads[t]), s.threads[t].node;
      && Flag(s', v, Group(w.g, v, u))
      && (forall x, i: nat :: Flag(s, x, i) ==> Flag(s', x, i))
      && (forall x, i: nat :: Flag(s', x, i) ==> Flag(s, x, i) || (x == v && i == Group(w.g, v, u)))
    ensures FlagsExplained(w, s')
  {
    forall k | 0 <= k < |s'.threads| ensures FlagsRaised(w.g, s', s'.threads[k]) {
      assert FlagsRaised(w.g, s, s.threads[k]);
    }
    assert ThreadsGrow(w.g, s, s');
    forall v, i: nat | Flag(s', v, i) ensures Caused(w.g, s', v, i) {
      if Flag(s, v, i) {
        CausesStay(w.g, s, s', v, i);
      } else {
        assert Delivered(w.g, s'.threads[t], v);
      }
    }
  }

  // ---------------------------------------------------------------------------
  // Bumping a counter

  ghost predicate AtArrival(w: Setup, s: State, t: nat) {
    && t < |s.threads| && s.threads[t].pc.Arriving?
    && s.threads[t].pc.index < |Targets(w.g, s.threads[t].node, s.threads[t].pc.output)|
  }

  /** Before the addition the count is short of complete, and no goroutine runs the target. */
  lemma ArrivalIsNeeded(w: Setup, s: State, t: nat, v: NodeId)
    requires Balanced(w, s, v) && AtArrival(w, s, t) && v == NextTarget(w.g, s.threads[t]) && !IsEntry(w.g, v)
    ensures s.arrived[v] < GroupCount(w.g, v)
    ensures Tally(OnNode(v), s.threads) == 0
  {
    TallyPositive(ArrivingAt(w.g, v), s.threads, t);
    TallyBounded(IsSet(), s.seen[v]);
  }

  ghost function Advanced(s: State, t: nat): seq<Thread>
    requires t < |s.threads| && s.threads[t].pc.Arriving?
  {
    s.threads[t := Thread(s.threads[t].node, Following(s.threads[t].pc.output, s.threads[t].pc.index + 1))]
  }

  /** Goroutine `t` added its arrival to the counter of `v`. */
  ghost predicate Counted(w: Setup, s: State, s': State, t: nat, v: NodeId) {
    && AtArrival(w, s, t)
    && v == NextTarget(w.g, s.threads[t]) && v in s.arrived && v in w.g.nodes && !IsEntry(w.g, v)
    && s'.arrived == s.arrived[v := s.arrived[v] + 1] && s'.seen == s.seen && s'.launched == s.launched
    && s'.threads == Advanced(s, t) + if s.arrived[v] + 1 == GroupCount(w.g, v) then [Thread(v, Ready)] else []
  }

  lemma ArriveBalanced(w: Setup, s: State, s': State, t: nat, v: NodeId, x: NodeId)
    requires Balanced(w, s, v) && Balanced(w, s, x) && Counted(w, s, s', t, v)
    ensures Balanced(w, s', x)
  {
    ArrivalIsNeeded(w, s, t, v);
    var moved := Advanced(s, t);
    TallyUpdate(ArrivingAt(w.g, x), s.threads, t, moved[t]);
    TallyUpdate(OnNode(x), s.threads, t, moved[t]);
    if s.arrived[v] + 1 == GroupCount(w.g, v) {
      TallyAppend(ArrivingAt(w.g, x), moved, Thread(v, Ready));
      TallyAppend(OnNode(x), moved, Thread(v, Ready));
    } else {
      assert s'.threads == moved;
    }
  }

  lemma ArriveShaped(w: Setup, s: State, s': State, t: nat, v: NodeId)
    requires Shaped(w, s) && Counted(w, s, s', t, v)
    ensures Shaped(w, s')
  {
  }

  lemma ArriveExplained(w: Setup, s: State, s': State, t: nat, v: NodeId)
    requires FlagsExplained(w, s) && Counted(w, s, s', t, v)
    ensures FlagsExplained(w, s')
  {
    FlagsStay(w, s, s');
  }

  /** The addition dispatches the target exactly when it completes the count. */
  lemma ArriveInv(w: Setup, s: State, s': State, t: nat, v: NodeId)
    requires Inv(w, s) && Counted(w, s, s', t, v)
    ensures Inv(w, s')
  {
    ArriveShaped(w, s, s', t, v);
    ArriveExplained(w, s, s', t, v);
    assert Balanced(w, s, v);
    forall x | x in w.g.nodes ensures Balanced(w, s', x) {
      assert Balanced(w, s, x);
      ArriveBalanced(w, s, s', t, v, x);
    }
  }

  // ---------------------------------------------------------------------------
  // Every step

  lemma MoveInv(w: Setup, s: State, t: nat, s': State, pc: Pc)
    requires Inv(w, s) && t < |s.threads| && SameCounters(s, s') && s'.threads == Move(s, t, pc).threads
    requires Passed(s.threads[t].pc) == 0 && Passed(pc) == 0 && !pc.Arriving?
    ensures Inv(w, s')
  {
    assert InRange(w.g, s.threads[t]);
    QuietMove(w, s, s', t, pc);
  }

  lemma EvictInv(w: Setup, s: State, t: nat)
    requires Inv(w, s) && t < |s.threads| && s.threads[t].pc.Evicting?
    ensures Inv(w, DoEvict(w, s, t))
  {
    var s' := DoEvict(w, s, t);
    MoveInv(w, s, t, s', s'.threads[t].pc);
  }

  lemma SwapInv(w: Setup, s: State, t: nat)
    requires Runnable(w.g) && Inv(w, s) && AtSwap(w, s, t)
    ensures Inv(w, DoSwap(w, s, t))
  {
    var s' := DoSwap(w, s, t);
    var u := s.threads[t].node;
    var v := NextTarget(w.g, s.threads[t]);
    TargetIsJoin(w.g, u, s.threads[t].pc.output, v);
    assert Balanced(w, s, v);
    SwapCase(w, s, s', t, u, v);
  }

  lemma SwapCase(w: Setup, s: State, s': State, t: nat, u: NodeId, v: NodeId)
    requires Inv(w, s) && AtSwap(w, s, t) && s' == DoSwap(w, s, t)
    requires u == s.threads[t].node && v == NextTarget(w.g, s.threads[t])
    requires v in s.seen && Group(w.g, v, u) < |s.seen[v]|
    ensures Inv(w, s')
  {
    if s.seen[v][Group(w.g, v, u)] {
      SwapLostInv(w, s, s', t);
    } else {
      SwapWonInv(w, s, s', t, v, Group(w.g, v, u));
    }
  }

  lemma CountInv(w: Setup, s: State, t: nat)
    requires Runnable(w.g) && Inv(w, s) && AtArrival(w, s, t)
    ensures Inv(w, DoArrive(w, s, t))
  {
    var v := NextTarget(w.g, s.threads[t]);
    TargetIsJoin(w.g, s.threads[t].node, s.threads[t].pc.output, v);
    ArriveCounts(w, s, DoArrive(w, s, t), t, v);
    ArriveInv(w, s, DoArrive(w, s, t), t, v);
  }

  lemma ArriveCounts(w: Setup, s: State, s': State, t: nat, v: NodeId)
    requires s.arrived.Keys == w.g.nodes.Keys && AtArrival(w, s, t) && s' == DoArrive(w, s, t)
    requires v == NextTarget(w.g, s.threads[t]) && v in w.g.nodes && !IsEntry(w.g, v)
    ensures Counted(w, s, s', t, v)
  {
  }

  lemma LaunchStepInv(w: Setup, s: State)
    requires EntriesListed(w.g) && Inv(w, s) && Enabled(w, s, Launch)
    ensures Inv(w, Apply(w, s, Launch))
  {
    EntryIsNew(w, s);
    LaunchInv(w, s, Apply(w, s, Launch), w.g.entryNodes[s.launched]);
  }

  /** Context checks, settling and cancelling move one goroutine that has not delivered yet. */
  lemma LocalStep(w: Setup, s: State, e: Event) returns (pc: Pc)
    requires Enabled(w, s, e) && (e.Check? || e.Settle? || e.Abort?)
    ensures e.t < |s.threads| && SameCounters(s, Apply(w, s, e))
    ensures Apply(w, s, e).threads == Move(s, e.t, pc).threads
    ensures Passed(s.threads[e.t].pc) == 0 && Passed(pc) == 0 && !pc.Arriving?
  {
    match e
    case Check(t) => pc := if s.cancelled then Aborted else Running;
    case Abort(t) => pc := Failed;
    case Settle(t, first, tries) =>
      match Settled(w.g, s.threads[t].node, first, tries)
      case Fail => pc := Failing;
      case Follow(o) => pc := Evicting(o, 0);
  }

  lemma LocalStepInv(w: Setup, s: State, e: Event)
    requires Inv(w, s) && Enabled(w, s, e)
    requires e.Check? || e.Settle? || e.Abort?
    ensures Inv(w, Apply(w, s, e))
  {
    var pc := LocalStep(w, s, e);
    MoveInv(w, s, e.t, Apply(w, s, e), pc);
  }

  lemma StepInv(w: Setup, s: State, e: Event)
    requires Runnable(w.g) && Inv(w, s) && Enabled(w, s, e)
    ensures Inv(w, Apply(w, s, e))
  {
    if e.Launch? { LaunchStepInv(w, s); }
    else if e.Check? || e.Settle? || e.Abort? { LocalStepInv(w, s, e); }
    else if e.Evict? { EvictInv(w, s, e.t); }
    else if e.Swap? { SwapInv(w, s, e.t); }
    else if e.Arrive? { CountInv(w, s, e.t); }
    else { CancelInv(w, s); }
  }

  lemma CancelInv(w: Setup, s: State)
    requires Inv(w, s)
    ensures Inv(w, s.(cancelled := true))
  {
    var s' := s.(cancelled := true);
    forall v | v in w.g.nodes ensures Balanced(w, s', v) { assert Balanced(w, s, v); }
    FlagsStay(w, s, s');
  }

  /** Every state that any interleaving can reach satisfies the invariant. */
  lemma {:induction false} RunInv(w: Setup, es: seq<Event>)
    requires Runnable(w.g) && Possible(w, es)
    ensures Inv(w, After(w, es))
    decreases |es|
  {
    if es == [] {
      InitInv(w);
    } else {
      RunInv(w, es[..|es|-1]);
      StepInv(w, After(w, es[..|es|-1]), es[|es|-1]);
    }
  }
}
