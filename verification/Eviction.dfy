/** The eviction tracker (internal/engine/eviction.go): which outputs are counted, and why no
    consumer ever loses one it may still read. */
module Eviction {
  import opened WorkflowGraph
  import opened Executor
  import Compile

  /** A multimap read; a missing key reads as the empty slice. */
  function At<K, V>(m: map<K, seq<V>>, k: K): seq<V> {
    if k in m then m[k] else []
  }

  // ---------------------------------------------------------------------------
  // Specification

  /** Nodes that may read the output of `p`: targets of its edges, and other nodes whose config
      mentions its key. */
  ghost function Readers(g: CompiledGraph, p: NodeId): set<NodeId> {
    (if p in g.adjacency then Children(g.adjacency, p) else {})
    + set c | c in g.nodes && c != p && OutputKey(g, p) in g.nodes[c].configRefs
  }

  /** `p`'s output is reference-counted. */
  ghost predicate Tracked(g: CompiledGraph, p: NodeId) {
    p in g.nodes && p !in g.terminalNodes && Readers(g, p) != {}
  }

  ghost predicate DistinctKeys(g: CompiledGraph) {
    forall p, q :: p in g.nodes && q in g.nodes && OutputKey(g, p) == OutputKey(g, q) ==> p == q
  }

  ghost predicate NoRepeats<T>(s: seq<T>) {
    forall i, j :: 0 <= i < j < |s| ==> s[i] != s[j]
  }

  /** The tables restricted to producers in `done`. */
  ghost predicate TracksOnly(g: CompiledGraph, refs: map<string, int>, consumers: map<NodeId, seq<string>>, done: set<NodeId>) {
    && (forall p :: p in done && Tracked(g, p) ==> OutputKey(g, p) in refs && refs[OutputKey(g, p)] == |Readers(g, p)|)
    && (forall key :: key in refs ==> exists p :: p in done && Tracked(g, p) && OutputKey(g, p) == key)
    && (forall c :: ListsKeys(g, consumers, done, c))
  }

  /** `c` lists exactly the keys of the tracked producers it may read, each once. */
  ghost predicate ListsKeys(g: CompiledGraph, consumers: map<NodeId, seq<string>>, done: set<NodeId>, c: NodeId) {
    && NoRepeats(At(consumers, c))
    && (forall key :: key in At(consumers, c) <==> ReadsKey(g, done, c, key))
  }

  ghost predicate ReadsKey(g: CompiledGraph, done: set<NodeId>, c: NodeId, key: string) {
    exists p :: p in done && Tracked(g, p) && OutputKey(g, p) == key && c in Readers(g, p)
  }

  ghost predicate Tracks(w: Setup) {
    TracksOnly(w.g, w.refs, w.consumers, w.g.nodes.Keys)
  }

  /** Valid aliases keep the keys of different nodes apart. */
  lemma ValidAliasesDistinctKeys(g: CompiledGraph)
    requires Compile.AliasesValid(g.nodes)
    ensures DistinctKeys(g)
  {
  }

  // ---------------------------------------------------------------------------
  // NewEvictionTracker

  predicate Mentions(g: CompiledGraph, c: NodeId, key: string) {
    c in g.nodes && key in g.nodes[c].configRefs
  }

  /** The reverse index from keys to the nodes whose config mentions them. */
  method IndexRefs(g: CompiledGraph) returns (index: map<string, seq<NodeId>>)
    ensures forall key, c :: c in At(index, key) <==> Mentions(g, c, key)
  {
    index := map[];
    var todo := g.nodes.Keys;
    while todo != {}
      invariant todo <= g.nodes.Keys
      invariant forall key, c :: c in At(index, key) <==> Mentions(g, c, key) && c !in todo
      decreases todo
    {
      var id :| id in todo;
      index := AddRefs(index, id, g.nodes[id].configRefs);
      todo := todo - {id};
    }
  }

  method AddRefs(index0: map<string, seq<NodeId>>, id: NodeId, refs: set<string>) returns (index: map<string, seq<NodeId>>)
    ensures forall key, c :: c in At(index, key) <==>
      c in At(index0, key) || (c == id && key in refs)
  {
    index := index0;
    var todo := refs;
    while todo != {}
      invariant todo <= refs
      invariant forall key, c :: c in At(index, key) <==>
        c in At(index0, key) || (c == id && key in refs - todo)
      decreases todo
    {
      var ref :| ref in todo;
      var index' := index[ref := At(index, ref) + [id]];
      var todo' := todo - {ref};
      forall key, c ensures c in At(index', key) <==> c in At(index0, key) || (c == id && key in refs - todo') {
        if key != ref { assert At(index', key) == At(index, key); }
      }
      index, todo := index', todo';
    }
  }

  /** The readers of one producer. */
  method CollectReaders(g: CompiledGraph, p: NodeId, index: map<string, seq<NodeId>>) returns (readers: set<NodeId>)
    requires p in g.adjacency
    requires forall key, c :: c in At(index, key) <==> Mentions(g, c, key)
    ensures readers == Readers(g, p)
  {
    readers := {};
    var outputs := g.adjacency[p].Keys;
    while outputs != {}
      invariant outputs <= g.adjacency[p].Keys
      invariant readers == set o, t | o in g.adjacency[p].Keys - outputs && t in g.adjacency[p][o] :: t
      decreases outputs
    {
      var o :| o in outputs;
      readers := readers + Elements(g.adjacency[p][o]);
      outputs := outputs - {o};
    }
    assert readers == Children(g.adjacency, p);
    var key := OutputKey(g, p);
    readers := readers + set c | c in At(index, key) && c != p;
  }

  lemma AppendKeepsDistinct<T>(s: seq<T>, x: T)
    requires NoRepeats(s) && x !in s
    ensures NoRepeats(s + [x])
  {
  }

  /** Register one key with each of its readers. */
  method Register(consumers0: map<NodeId, seq<string>>, readers: set<NodeId>, key: string)
    returns (consumers: map<NodeId, seq<string>>)
    requires forall c :: NoRepeats(At(consumers0, c)) && key !in At(consumers0, c)
    ensures forall c :: NoRepeats(At(consumers, c))
    ensures forall c, k :: k in At(consumers, c) <==>
      k in At(consumers0, c) || (c in readers && k == key)
  {
    consumers := consumers0;
    var todo := readers;
    while todo != {}
      invariant todo <= readers
      invariant forall c :: NoRepeats(At(consumers, c))
      invariant forall c :: c in todo ==> key !in At(consumers, c)
      invariant forall c, k :: k in At(consumers, c) <==>
        k in At(consumers0, c) || (c in readers - todo && k == key)
      decreases todo
    {
      var id :| id in todo;
      var keys := At(consumers, id);
      AppendKeepsDistinct(keys, key);
      var consumers' := consumers[id := keys + [key]];
      forall c ensures NoRepeats(At(consumers', c)) {
        if c != id { assert At(consumers', c) == At(consumers, c); }
      }
      consumers := consumers';
      todo := todo - {id};
    }
  }

  lemma AddProducer(g: CompiledGraph, refs: map<string, int>, consumers: map<NodeId, seq<string>>, done: set<NodeId>, p: NodeId,
                    refs': map<string, int>, consumers': map<NodeId, seq<string>>)
    requires DistinctKeys(g) && done <= g.nodes.Keys && p in g.nodes && p !in done
    requires TracksOnly(g, refs, consumers, done) && Tracked(g, p)
    requires refs' == refs[OutputKey(g, p) := |Readers(g, p)|]
    requires forall c :: NoRepeats(At(consumers', c))
    requires forall c, k :: k in At(consumers', c) <==>
      k in At(consumers, c) || (c in Readers(g, p) && k == OutputKey(g, p))
    ensures TracksOnly(g, refs', consumers', done + {p})
  {
    var done' := done + {p};
    forall q | q in done' && Tracked(g, q)
      ensures OutputKey(g, q) in refs' && refs'[OutputKey(g, q)] == |Readers(g, q)| {}
    forall key | key in refs' ensures exists q :: q in done' && Tracked(g, q) && OutputKey(g, q) == key {
      if key != OutputKey(g, p) {
        var q :| q in done && Tracked(g, q) && OutputKey(g, q) == key;
        assert q in done';
      }
    }
    forall c ensures ListsKeys(g, consumers', done', c) { AddReader(g, consumers, done, p, consumers', c); }
  }

  lemma AddReader(g: CompiledGraph, consumers: map<NodeId, seq<string>>, done: set<NodeId>, p: NodeId,
                  consumers': map<NodeId, seq<string>>, c: NodeId)
    requires ListsKeys(g, consumers, done, c) && Tracked(g, p)
    requires NoRepeats(At(consumers', c))
    requires forall k :: k in At(consumers', c) <==>
      k in At(consumers, c) || (c in Readers(g, p) && k == OutputKey(g, p))
    ensures ListsKeys(g, consumers', done + {p}, c)
  {
    forall k ensures k in At(consumers', c) <==> ReadsKey(g, done + {p}, c, k) {
      if ReadsKey(g, done, c, k) {
        var q :| q in done && Tracked(g, q) && OutputKey(g, q) == k && c in Readers(g, q);
        assert q in done + {p};
      }
      if ReadsKey(g, done + {p}, c, k) {
        var q :| q in done + {p} && Tracked(g, q) && OutputKey(g, q) == k && c in Readers(g, q);
        if q != p { assert ReadsKey(g, done, c, k); }
      }
    }
  }

  lemma KeyIsNew(g: CompiledGraph, refs: map<string, int>, consumers: map<NodeId, seq<string>>, done: set<NodeId>, p: NodeId)
    requires DistinctKeys(g) && done <= g.nodes.Keys && p in g.nodes && p !in done && TracksOnly(g, refs, consumers, done)
    ensures forall c :: NoRepeats(At(consumers, c)) && OutputKey(g, p) !in At(consumers, c)
  {
    forall c ensures NoRepeats(At(consumers, c)) && OutputKey(g, p) !in At(consumers, c) {
      assert ListsKeys(g, consumers, done, c);
      assert !ReadsKey(g, done, c, OutputKey(g, p));
    }
  }

  lemma SkippedReadsNothing(g: CompiledGraph, done: set<NodeId>, p: NodeId, c: NodeId, key: string)
    requires !Tracked(g, p)
    ensures ReadsKey(g, done + {p}, c, key) <==> ReadsKey(g, done, c, key)
  {
    if ReadsKey(g, done, c, key) {
      var q :| q in done && Tracked(g, q) && OutputKey(g, q) == key && c in Readers(g, q);
      assert q in done + {p};
    }
  }

  lemma SkipProducer(g: CompiledGraph, refs: map<string, int>, consumers: map<NodeId, seq<string>>, done: set<NodeId>, p: NodeId)
    requires TracksOnly(g, refs, consumers, done) && !Tracked(g, p)
    ensures TracksOnly(g, refs, consumers, done + {p})
  {
    var done' := done + {p};
    forall key | key in refs ensures exists q :: q in done' && Tracked(g, q) && OutputKey(g, q) == key {
      var q :| q in done && Tracked(g, q) && OutputKey(g, q) == key;
      assert q in done';
    }
    forall c ensures ListsKeys(g, consumers, done', c) {
      assert ListsKeys(g, consumers, done, c);
      forall key ensures key in At(consumers, c) <==> ReadsKey(g, done', c, key) {
        SkippedReadsNothing(g, done, p, c, key);
      }
    }
  }

  /** One turn of the loop over producers. */
  method TrackProducer(g: CompiledGraph, p: NodeId, index: map<string, seq<NodeId>>, refs: map<string, int>,
                       consumers: map<NodeId, seq<string>>, ghost done: set<NodeId>)
    returns (refs': map<string, int>, consumers': map<NodeId, seq<string>>)
    requires DistinctKeys(g) && done <= g.nodes.Keys && p in g.nodes && p !in done && p in g.adjacency
    requires TracksOnly(g, refs, consumers, done)
    requires forall key, c :: c in At(index, key) <==> Mentions(g, c, key)
    ensures TracksOnly(g, refs', consumers', done + {p})
  {
    var readers := {};
    if p !in g.terminalNodes { readers := CollectReaders(g, p, index); }
    if readers == {} {
      SkipProducer(g, refs, consumers, done, p);
      refs', consumers' := refs, consumers;
    } else {
      KeyIsNew(g, refs, consumers, done, p);
      consumers' := Register(consumers, readers, OutputKey(g, p));
      refs' := refs[OutputKey(g, p) := |readers|];
      AddProducer(g, refs, consumers, done, p, refs', consumers');
    }
  }

  /** The reference counts and consumer lists of a compiled graph. */
  method NewEvictionTracker(g: CompiledGraph, retain: bool) returns (w: Setup)
    requires Wired(g) && DistinctKeys(g)
    ensures w.g == g && w.retain == retain && Tracks(w)
  {
    var index := IndexRefs(g);
    var refs: map<string, int> := map[];
    var consumers: map<NodeId, seq<string>> := map[];
    var todo := g.nodes.Keys;
    while todo != {}
      invariant todo <= g.nodes.Keys
      invariant TracksOnly(g, refs, consumers, g.nodes.Keys - todo)
      decreases todo
    {
      var p :| p in todo;
      refs, consumers := TrackProducer(g, p, index, refs, consumers, g.nodes.Keys - todo);
      assert g.nodes.Keys - todo + {p} == g.nodes.Keys - (todo - {p});
      todo := todo - {p};
    }
    assert g.nodes.Keys - todo == g.nodes.Keys;
    w := Setup(g, consumers, refs, retain);
  }
}
