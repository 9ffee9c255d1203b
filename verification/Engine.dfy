/** From definition to run: what a workflow that compiles is guaranteed whenever it is executed. */
module Engine {
  import opened Common
  import opened WorkflowGraph
  import opened Executor
  import opened ExecutorInvariant
  import opened ExecutorTheorems
  import opened ScheduleIndependence
  import Compile
  import Eviction
  import EvictionRuns
  import Joins

  /** A compiled definition together with the eviction tracker that the executor builds for it. */
  ghost predicate Prepared(w: Setup, wf: WorkflowConfig, outputsOf: Compile.Resolver) {
    Compile.Implements(w.g, wf, outputsOf) && Eviction.Tracks(w)
  }

  /** Compilation gives the executor and the tracker what they rely on. */
  method Prepare(wf: WorkflowConfig, outputsOf: Compile.Resolver, retain: bool)
    returns (r: Result<Setup, Compile.CompileError>)
    ensures r.Ok? <==> Compile.Compilable(wf, outputsOf)
    ensures r.Ok? ==> Prepared(r.value, wf, outputsOf) && r.value.retain == retain
  {
    var compiled := Compile.Compile(wf, outputsOf);
    if compiled.Err? { return Err(compiled.error); }
    Eviction.ValidAliasesDistinctKeys(compiled.value);
    var w := Eviction.NewEvictionTracker(compiled.value, retain);
    r := Ok(w);
  }

  lemma PreparedRuns(w: Setup, wf: WorkflowConfig, outputsOf: Compile.Resolver)
    requires Prepared(w, wf, outputsOf)
    ensures Runnable(w.g) && Eviction.DistinctKeys(w.g) && Eviction.Tracks(w)
    ensures wf.nodes != map[] ==> w.g.entryNodes != []
  {
    Eviction.ValidAliasesDistinctKeys(w.g);
    if wf.nodes != map[] { Compile.CompiledGraphHasEntry(w.g, wf, outputsOf); }
  }

  /** The name under which expressions find a node's output: its alias if it has one, else its id. */
  ghost function NameOf(wf: WorkflowConfig, p: NodeId): string {
    if p in wf.nodes && wf.nodes[p].alias != "" then wf.nodes[p].alias else p
  }

  /** According to the definition, `r` may read the output of `p`: an edge leads from `p` to `r`, or the
      config of `r` mentions the name of `p`'s output. */
  ghost predicate MayRead(wf: WorkflowConfig, r: NodeId, p: NodeId) {
    || (exists e :: e in wf.edges && e.from == p && e.to == r)
    || (r in wf.nodes && r != p && NameOf(wf, p) in wf.nodes[r].refs)
  }

  lemma ReadersMayRead(g: CompiledGraph, wf: WorkflowConfig, outputsOf: Compile.Resolver, r: NodeId, p: NodeId)
    requires Compile.Implements(g, wf, outputsOf) && p in g.nodes
    ensures OutputKey(g, p) == NameOf(wf, p)
    ensures r in Eviction.Readers(g, p) <==> MayRead(wf, r, p)
  {
    Compile.ArrowsAreEdges(g, wf.edges);
    assert r in Children(g.adjacency, p) <==> r in Compile.EdgeGraph(g.nodes.Keys, wf.edges)[p] by {
      assert Arrows(g)[p] == Children(g.adjacency, p);
    }
  }

  /** In the state `s`, goroutine `k` has stored its output, and goroutine `m`, whose node may read it, has
      not finished running. */
  ghost predicate ReaderPending(wf: WorkflowConfig, s: State, k: nat, m: nat) {
    && k < |s.threads| && Fired(s.threads[k].pc).Some?
    && m < |s.threads| && (s.threads[m].pc.Ready? || s.threads[m].pc.Running?)
    && MayRead(wf, s.threads[m].node, s.threads[k].node)
  }

  /** Whatever the schedule, the oracles' answers, failures and cancellation: no node of a definition
      that compiles runs twice, and no running node misses an output that the definition lets it read. */
  lemma EveryRunIsSafe(w: Setup, wf: WorkflowConfig, outputsOf: Compile.Resolver, es: seq<Event>)
    requires Prepared(w, wf, outputsOf) && Possible(w, es)
    ensures OneEach(After(w, es))
    ensures forall k: nat, m: nat :: ReaderPending(wf, After(w, es), k, m) ==>
      NameOf(wf, After(w, es).threads[k].node) in After(w, es).outputs
  {
    PreparedRuns(w, wf, outputsOf);
    DispatchedOnceAfterAllGroups(w, es);
    EvictionRuns.RunOneEach(w, es);
    forall k: nat, m: nat | ReaderPending(wf, After(w, es), k, m)
      ensures NameOf(wf, After(w, es).threads[k].node) in After(w, es).outputs
    {
      ReadersMayRead(w.g, wf, outputsOf, After(w, es).threads[m].node, After(w, es).threads[k].node);
      EvictionRuns.RunningReadersSeeOutputs(w, es, k, m);
    }
  }

  // ---------------------------------------------------------------------------
  // The meaning of a definition does not depend on how its groups are numbered

  lemma SameAdjacency(g: CompiledGraph, g': CompiledGraph, wf: WorkflowConfig, outputsOf: Compile.Resolver)
    requires Compile.Implements(g, wf, outputsOf) && Compile.Implements(g', wf, outputsOf)
    ensures g.adjacency == g'.adjacency
  {
    Compile.ImplementsAdjacency(g, wf, outputsOf);
    Compile.ImplementsAdjacency(g', wf, outputsOf);
  }

  /** The part of two compilations that the meaning of a run rests on. */
  ghost predicate SameJoins(g: CompiledGraph, g': CompiledGraph) {
    && g.nodes.Keys == g'.nodes.Keys && g.adjacency == g'.adjacency
    && (forall v :: Inbound(g, v) == Inbound(g', v))
    && (forall v :: v in g.nodes ==> SameJoin(g, g', v))
  }

  /** Both group the legs of `v` in the same way, though perhaps under different numbers. */
  ghost predicate SameJoin(g: CompiledGraph, g': CompiledGraph, v: NodeId) {
    && (forall a, b :: a in Inbound(g, v) && b in Inbound(g, v) ==>
          (Group(g, v, a) == Group(g, v, b) <==> Group(g', v, a) == Group(g', v, b)))
    && (forall a :: a in Inbound(g, v) ==> Group(g, v, a) < GroupCount(g, v))
    && (!IsEntry(g, v) ==> forall i: nat :: i < GroupCount(g', v) ==> Numbers(g', v, i))
  }

  ghost predicate Numbers(g: CompiledGraph, v: NodeId, i: nat) {
    exists a :: a in Inbound(g, v) && Group(g, v, a) == i
  }

  lemma SameJoinFrom(g: CompiledGraph, g': CompiledGraph, v: NodeId)
    requires g.adjacency == g'.adjacency && Inbound(g, v) == Inbound(g', v)
    requires Compile.JoinGrouped(g, v) && Compile.JoinGrouped(g', v)
    ensures SameJoin(g, g', v)
  {
    if Inbound(g, v) != [] {
      forall i: nat | i < GroupCount(g', v) ensures Numbers(g', v, i) {
        assert Joins.Used(g'.joinGroups[v], i);
        var a :| a in g'.joinGroups[v] && g'.joinGroups[v][a] == i;
        assert a in Inbound(g', v);
      }
    }
  }

  lemma SameInbound(g: CompiledGraph, g': CompiledGraph, wf: WorkflowConfig, outputsOf: Compile.Resolver, v: NodeId)
    requires Compile.Implements(g, wf, outputsOf) && Compile.Implements(g', wf, outputsOf)
    ensures Inbound(g, v) == Inbound(g', v)
  {
    assert Compile.HoldsSources(wf.edges, g.reverse, g.depCount, v);
    assert Compile.HoldsSources(wf.edges, g'.reverse, g'.depCount, v);
  }

  lemma CompilationsAgree(g: CompiledGraph, g': CompiledGraph, wf: WorkflowConfig, outputsOf: Compile.Resolver)
    requires Compile.Implements(g, wf, outputsOf) && Compile.Implements(g', wf, outputsOf)
    ensures SameJoins(g, g')
  {
    SameAdjacency(g, g', wf, outputsOf);
    forall v ensures Inbound(g, v) == Inbound(g', v) { SameInbound(g, g', wf, outputsOf, v); }
    forall v | v in g.nodes ensures SameJoin(g, g', v) { SameJoinFrom(g, g', v); }
  }

  lemma DueTransfers(g: CompiledGraph, g': CompiledGraph, c: Choice, nodes: set<NodeId>, v: NodeId)
    requires SameJoins(g, g') && Wired(g) && v in g.nodes && Due(g, c, nodes, v)
    ensures Due(g', c, nodes, v)
  {
    if !IsEntry(g, v) {
      assert SameJoin(g, g', v);
      forall i: nat | i < GroupCount(g', v) ensures Feeds(g', c, nodes, v, i) {
        assert Numbers(g', v, i);
        var a :| a in Inbound(g', v) && Group(g', v, a) == i;
        assert Feeds(g, c, nodes, v, Group(g, v, a));
        var u :| u in nodes && v in Targets(g, u, c(u)) && Group(g, v, u) == Group(g, v, a);
        assert u in Inbound(g, v);
        assert v in Targets(g', u, c(u)) && Group(g', v, u) == i;
      }
    }
  }

  lemma ClosedTransfers(g: CompiledGraph, g': CompiledGraph, c: Choice, nodes: set<NodeId>)
    requires SameJoins(g', g) && g.nodes.Keys == g'.nodes.Keys && Wired(g') && Closed(g, c, nodes)
    ensures Closed(g', c, nodes)
  {
    forall v | v in g'.nodes && Due(g', c, nodes, v) ensures v in nodes { DueTransfers(g', g, c, nodes, v); }
  }

  /** Clean runs of separate compilations of one definition, with any schedules and either retention
      mode, execute the same nodes whenever they follow the same outputs. */
  lemma DefinitionDeterminesNodes(w: Setup, w': Setup, wf: WorkflowConfig, outputsOf: Compile.Resolver,
                                  es: seq<Event>, es': seq<Event>, c: Choice)
    requires Prepared(w, wf, outputsOf) && Prepared(w', wf, outputsOf)
    requires Possible(w, es) && Clean(w, After(w, es)) && Obeys(After(w, es), c)
    requires Possible(w', es') && Clean(w', After(w', es')) && Obeys(After(w', es'), c)
    ensures Dispatched(After(w, es)) == Dispatched(After(w', es'))
  {
    CompilationsAgree(w.g, w'.g, wf, outputsOf);
    CompilationsAgree(w'.g, w.g, wf, outputsOf);
    CleanRunIsLeast(w, es, c);
    CleanRunIsLeast(w', es', c);
    ClosedTransfers(w.g, w'.g, c, Dispatched(After(w, es)));
    ClosedTransfers(w'.g, w.g, c, Dispatched(After(w', es')));
  }
}
