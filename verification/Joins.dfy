/** Join classification (internal/engine/compiler.go): when two inbound legs count as mutually
    exclusive, and the partition of every node's legs into groups. */
module Joins {
  import opened Common
  import opened Digraphs
  import opened WorkflowGraph
  import GraphSearch
  import UnionFind

  // ---------------------------------------------------------------------------
  // Specification

  /** Output `o` of `ancestor` leads to `src`'s leg into `join`: by a direct edge to the join
      when `src` is the ancestor itself, otherwise by a path to `src`. */
  ghost predicate Descends(adjacency: Adjacency, ancestor: NodeId, join: NodeId, src: NodeId, o: string) {
    && ancestor in adjacency && o in adjacency[ancestor]
    && if src == ancestor then join in adjacency[ancestor][o]
       else exists s :: s in adjacency[ancestor][o] && Reaches(ArrowsOf(adjacency), s, src)
  }

  /** `x` has several outputs, and the two legs come from disjoint, non-empty sets of them. */
  ghost predicate Splits(adjacency: Adjacency, x: NodeId, join: NodeId, a: NodeId, b: NodeId) {
    && x in adjacency && |adjacency[x]| > 1
    && (exists o :: Descends(adjacency, x, join, a, o))
    && (exists o :: Descends(adjacency, x, join, b, o))
    && forall o :: !(Descends(adjacency, x, join, a, o) && Descends(adjacency, x, join, b, o))
  }

  ghost predicate Exclusive(adjacency: Adjacency, join: NodeId, a: NodeId, b: NodeId) {
    exists x :: Splits(adjacency, x, join, a, b)
  }

  /** The legs of a join, linked when they are pairwise exclusive. */
  ghost function ExclusionGraph(adjacency: Adjacency, join: NodeId, sources: set<NodeId>): Digraph {
    map a | a in sources :: set b | b in sources && b != a && Exclusive(adjacency, join, a, b)
  }

  ghost predicate Used(groups: map<NodeId, nat>, i: nat) {
    exists a :: a in groups && groups[a] == i
  }

  /** Two legs share a group exactly when a chain of exclusive pairs links them, and the group
      numbers are 0, 1, ... without gaps. */
  ghost predicate Partitions(adjacency: Adjacency, join: NodeId, sources: set<NodeId>,
                             groups: map<NodeId, nat>, count: nat)
  {
    && groups.Keys == sources
    && (forall a :: a in groups ==> groups[a] < count)
    && (forall i: nat :: i < count ==> Used(groups, i))
    && (forall a, b :: a in sources && b in sources ==>
          (groups[a] == groups[b] <==> Reaches(ExclusionGraph(adjacency, join, sources), a, b)))
  }

  lemma SplitterIsCommonAncestor(adjacency: Adjacency, x: NodeId, join: NodeId, src: NodeId, o: string)
    requires Descends(adjacency, x, join, src, o) && src != x
    ensures StrictlyReaches(ArrowsOf(adjacency), x, src)
  {
    var s :| s in adjacency[x][o] && Reaches(ArrowsOf(adjacency), s, src);
    assert s in Children(adjacency, x);
    assert s in Succ(ArrowsOf(adjacency), x);
  }

  // ---------------------------------------------------------------------------
  // mutuallyExclusive

  /** The outputs of `ancestor` from which `src`'s leg into `join` descends. */
  method DescendedOutputs(g: CompiledGraph, ancestor: NodeId, join: NodeId, src: NodeId)
    returns (result: set<string>)
    requires Wired(g) && ancestor in g.nodes
    ensures forall o :: o in result <==> Descends(g.adjacency, ancestor, join, src, o)
  {
    var names := SortedStrings(g.adjacency[ancestor].Keys);
    result := {};
    for i := 0 to |names|
      invariant forall o :: o in result <==> o in names[..i] && Descends(g.adjacency, ancestor, join, src, o)
    {
      assert names[..i+1] == names[..i] + [names[i]] && names[i] in names;
      var descends := DescendsFrom(g, ancestor, join, src, names[i]);
      if descends { result := result + {names[i]}; }
    }
    assert names[..|names|] == names;
  }

  /** Whether one output leads to the leg. */
  method DescendsFrom(g: CompiledGraph, ancestor: NodeId, join: NodeId, src: NodeId, o: string) returns (yes: bool)
    requires Wired(g) && ancestor in g.nodes && o in g.adjacency[ancestor]
    ensures yes <==> Descends(g.adjacency, ancestor, join, src, o)
  {
    var targets := g.adjacency[ancestor][o];
    if src == ancestor { return join in targets; }
    yes := GraphSearch.ReachableFrom(g, targets, src);
  }

  /** Whether the outputs of one candidate ancestor keep the two legs apart. */
  method Separates(g: CompiledGraph, x: NodeId, join: NodeId, a: NodeId, b: NodeId) returns (yes: bool)
    requires Wired(g) && x in g.nodes
    ensures yes <==> Splits(g.adjacency, x, join, a, b)
  {
    if |g.adjacency[x]| <= 1 { return false; }
    var outsA := DescendedOutputs(g, x, join, a);
    var outsB := DescendedOutputs(g, x, join, b);
    if outsA == {} || outsB == {} { return false; }
    yes := outsA * outsB == {};
    ghost var oA :| oA in outsA;
    ghost var oB :| oB in outsB;
    assert Descends(g.adjacency, x, join, a, oA) && Descends(g.adjacency, x, join, b, oB);
    forall o | Descends(g.adjacency, x, join, a, o) && Descends(g.adjacency, x, join, b, o)
      ensures o in outsA * outsB {}
  }

  /** Some common ancestor, or one of the legs' own sources, keeps the two legs apart. */
  method MutuallyExclusive(g: CompiledGraph, join: NodeId, a: NodeId, b: NodeId) returns (yes: bool)
    requires Wired(g) && a in g.nodes && b in g.nodes
    ensures yes <==> Exclusive(g.adjacency, join, a, b)
  {
    var ancA := GraphSearch.TraceAncestors(g, a);
    ancA := ancA + {a};
    var ancB := GraphSearch.TraceAncestors(g, b);
    ancB := ancB + {b};
    forall x | Splits(g.adjacency, x, join, a, b) ensures x in ancA && x in ancB {
      var o :| Descends(g.adjacency, x, join, a, o);
      if x != a { SplitterIsCommonAncestor(g.adjacency, x, join, a, o); }
      var o' :| Descends(g.adjacency, x, join, b, o');
      if x != b { SplitterIsCommonAncestor(g.adjacency, x, join, b, o'); }
    }
    var todo := ancA;
    while todo != {}
      invariant todo <= ancA
      invariant forall x :: x in ancA - todo ==> !Splits(g.adjacency, x, join, a, b)
      decreases todo
    {
      var x :| x in todo;
      if x in ancB {
        assert x in g.nodes by { AncestorIsNode(g, x, a); }
        yes := Separates(g, x, join, a, b);
        if yes { return; }
      }
      todo := todo - {x};
    }
    yes := false;
  }

  lemma AncestorIsNode(g: CompiledGraph, x: NodeId, a: NodeId)
    requires Wired(g) && a in g.nodes
    requires x == a || StrictlyReaches(Arrows(g), x, a)
    ensures x in g.nodes
  {
  }

  // ---------------------------------------------------------------------------
  // Grouping

  lemma ExclusiveSymmetric(adjacency: Adjacency, join: NodeId, a: NodeId, b: NodeId)
    requires Exclusive(adjacency, join, a, b)
    ensures Exclusive(adjacency, join, b, a)
  {
    var x :| Splits(adjacency, x, join, a, b);
    assert Splits(adjacency, x, join, b, a);
  }

  /** Legs with the same representative are linked by exclusive pairs. */
  ghost predicate Sound(x: Digraph, root: map<NodeId, NodeId>) {
    forall a, b :: a in root && b in root && root[a] == root[b] ==> Reaches(x, a, b)
  }

  lemma MergeSound(x: Digraph, root: map<NodeId, NodeId>, a: NodeId, b: NodeId)
    requires Sound(x, root) && a in root && b in root
    requires b in Succ(x, a) && a in Succ(x, b)
    ensures Sound(x, UnionFind.Merged(root, a, b))
  {
    var root' := UnionFind.Merged(root, a, b);
    ReachesSelf(x, a);
    ReachesSelf(x, b);
    ReachesThenEdge(x, a, a, b);
    ReachesThenEdge(x, b, b, a);
    forall c, d | c in root' && d in root' && root'[c] == root'[d] ensures Reaches(x, c, d) {
      if root[c] != root[d] {
        if root[c] == root[b] {
          ReachesTransitive(x, c, b, a);
          ReachesTransitive(x, c, a, d);
        } else {
          ReachesTransitive(x, c, a, b);
          ReachesTransitive(x, c, b, d);
        }
      }
    }
  }

  lemma {:induction false} SameRootAlongPath(x: Digraph, root: map<NodeId, NodeId>, p: seq<NodeId>)
    requires forall a, b :: a in root && b in Succ(x, a) ==> b in root && root[a] == root[b]
    requires IsPath(x, p) && p[0] in root
    ensures p[|p|-1] in root && root[p[|p|-1]] == root[p[0]]
    decreases |p|
  {
    if |p| > 1 {
      assert p[1] in Succ(x, p[0]);
      SameRootAlongPath(x, root, p[1..]);
    }
  }

  lemma RootsAreClasses(x: Digraph, root: map<NodeId, NodeId>)
    requires Sound(x, root)
    requires forall a, b :: a in root && b in Succ(x, a) ==> b in root && root[a] == root[b]
    ensures forall a, b :: a in root && b in root ==> (root[a] == root[b] <==> Reaches(x, a, b))
  {
    forall a, b | a in root && b in root && Reaches(x, a, b) ensures root[a] == root[b] {
      var p :| PathFromTo(x, p, a, b);
      SameRootAlongPath(x, root, p);
    }
  }

  type Pair = (NodeId, NodeId)

  ghost predicate ExclusivePairs(adjacency: Adjacency, join: NodeId, sources: seq<NodeId>, pairs: seq<Pair>) {
    forall p :: p in pairs ==> p.0 in sources && p.1 in sources && Exclusive(adjacency, join, p.0, p.1)
  }

  /** Leg `j` has been compared with the legs after it, up to `n`. */
  ghost predicate RowListed(adjacency: Adjacency, join: NodeId, sources: seq<NodeId>, pairs: seq<Pair>, j: nat, n: nat) {
    forall k :: j < k < n <= |sources| && Exclusive(adjacency, join, sources[j], sources[k]) ==>
      (sources[j], sources[k]) in pairs
  }

  method ListRow(g: CompiledGraph, join: NodeId, sources: seq<NodeId>, i: nat) returns (pairs: seq<Pair>)
    requires Wired(g) && Elements(sources) <= g.nodes.Keys && i < |sources|
    ensures ExclusivePairs(g.adjacency, join, sources, pairs)
    ensures RowListed(g.adjacency, join, sources, pairs, i, |sources|)
  {
    pairs := [];
    assert sources[i] in Elements(sources);
    for k := i + 1 to |sources|
      invariant ExclusivePairs(g.adjacency, join, sources, pairs)
      invariant RowListed(g.adjacency, join, sources, pairs, i, k)
    {
      assert sources[k] in Elements(sources);
      var exclusive := MutuallyExclusive(g, join, sources[i], sources[k]);
      if exclusive { pairs := pairs + [(sources[i], sources[k])]; }
    }
  }

  /** The exclusive pairs among the legs, in the order in which the compiler merges them. */
  method ListExclusivePairs(g: CompiledGraph, join: NodeId, sources: seq<NodeId>) returns (pairs: seq<Pair>)
    requires Wired(g) && Elements(sources) <= g.nodes.Keys
    ensures ExclusivePairs(g.adjacency, join, sources, pairs)
    ensures forall j :: 0 <= j < |sources| ==> RowListed(g.adjacency, join, sources, pairs, j, |sources|)
  {
    pairs := [];
    for i := 0 to |sources|
      invariant ExclusivePairs(g.adjacency, join, sources, pairs)
      invariant forall j :: 0 <= j < i ==> RowListed(g.adjacency, join, sources, pairs, j, |sources|)
    {
      var row := ListRow(g, join, sources, i);
      var pairs' := pairs + row;
      forall j | 0 <= j <= i ensures RowListed(g.adjacency, join, sources, pairs', j, |sources|) {
        if j < i { assert RowListed(g.adjacency, join, sources, pairs, j, |sources|); }
      }
      pairs := pairs';
    }
  }

  /** Merge every listed pair. */
  method UniteAll(uf: UnionFind.Forest, pairs: seq<Pair>, ghost x: Digraph)
    requires uf.Valid() && Sound(x, uf.root)
    requires forall p :: p in pairs ==>
      p.0 in uf.root && p.1 in uf.root && p.1 in Succ(x, p.0) && p.0 in Succ(x, p.1)
    modifies uf
    ensures uf.Valid() && Sound(x, uf.root) && uf.root.Keys == old(uf.root).Keys
    ensures forall p :: p in pairs ==> p.0 in uf.root && p.1 in uf.root && uf.root[p.0] == uf.root[p.1]
  {
    for i := 0 to |pairs|
      invariant uf.Valid() && Sound(x, uf.root) && uf.root.Keys == old(uf.root).Keys
      invariant forall k :: 0 <= k < i ==> uf.root[pairs[k].0] == uf.root[pairs[k].1]
    {
      assert pairs[i] in pairs;
      MergeSound(x, uf.root, pairs[i].0, pairs[i].1);
      uf.Union(pairs[i].0, pairs[i].1);
    }
  }

  /** All exclusive pairs are merged, so representatives tell exactly the linked legs apart. */
  lemma MergedAll(adjacency: Adjacency, join: NodeId, sources: seq<NodeId>, pairs: seq<Pair>, root: map<NodeId, NodeId>)
    requires root.Keys == Elements(sources)
    requires Sound(ExclusionGraph(adjacency, join, Elements(sources)), root)
    requires forall j :: 0 <= j < |sources| ==> RowListed(adjacency, join, sources, pairs, j, |sources|)
    requires forall p :: p in pairs ==> p.0 in root && p.1 in root && root[p.0] == root[p.1]
    ensures forall a, b :: a in root && b in root ==>
      (root[a] == root[b] <==> Reaches(ExclusionGraph(adjacency, join, Elements(sources)), a, b))
  {
    var x := ExclusionGraph(adjacency, join, Elements(sources));
    forall a, b | a in root && b in Succ(x, a) ensures b in root && root[a] == root[b] {
      var j :| 0 <= j < |sources| && sources[j] == a;
      var k :| 0 <= k < |sources| && sources[k] == b;
      ExclusiveSymmetric(adjacency, join, a, b);
      if j < k {
        assert RowListed(adjacency, join, sources, pairs, j, |sources|);
        assert (a, b) in pairs;
      } else {
        assert RowListed(adjacency, join, sources, pairs, k, |sources|);
        assert (b, a) in pairs;
      }
    }
    RootsAreClasses(x, root);
  }

  /** Number the classes in the order in which they are met. */
  method NumberClasses(uf: UnionFind.Forest, sources: seq<NodeId>) returns (groups: map<NodeId, nat>, count: nat)
    requires uf.Valid() && Elements(sources) <= uf.root.Keys
    modifies uf`parent
    ensures uf.Valid() && groups.Keys == Elements(sources)
    ensures forall a :: a in groups ==> groups[a] < count
    ensures forall i: nat :: i < count ==> Used(groups, i)
    ensures forall a, b :: a in groups && b in groups ==> (groups[a] == groups[b] <==> uf.root[a] == uf.root[b])
  {
    groups, count := map[], 0;
    var index: map<NodeId, nat> := map[];
    for i := 0 to |sources|
      invariant uf.Valid()
      invariant groups.Keys == Elements(sources[..i])
      invariant forall a :: a in groups ==> uf.root[a] in index && groups[a] == index[uf.root[a]]
      invariant forall r, s :: r in index && s in index && index[r] == index[s] ==> r == s
      invariant forall r :: r in index ==> index[r] < count
      invariant forall k: nat :: k < count ==> Used(groups, k)
    {
      var src := sources[i];
      assert src in Elements(sources);
      assert sources[..i+1] == sources[..i] + [src];
      ghost var groups0 := groups;
      var r := uf.Find(src);
      if r !in index {
        index := index[r := count];
        count := count + 1;
      }
      groups := groups[src := index[r]];
      forall k: nat | k < count ensures Used(groups, k) {
        if Used(groups0, k) {
          var a :| a in groups0 && groups0[a] == k;
          assert groups[a] == k;
        } else {
          assert groups[src] == k;
        }
      }
    }
    assert sources[..|sources|] == sources;
  }

  ghost predicate OneGroup(groups: map<NodeId, nat>) {
    forall a, b :: a in groups && b in groups ==> groups[a] == groups[b]
  }

  ghost predicate AllApart(groups: map<NodeId, nat>) {
    forall a, b :: a in groups && b in groups && groups[a] == groups[b] ==> a == b
  }

  ghost predicate OneLeg(groups: map<NodeId, nat>) {
    forall a, b :: a in groups && b in groups ==> a == b
  }

  /** One leg is no join; otherwise it is an OR-join if all legs share a group, an AND-join if no two
      legs do, and mixed if neither holds. */
  ghost predicate KindFits(kind: JoinType, groups: map<NodeId, nat>) {
    match kind
    case JoinNone => OneLeg(groups)
    case JoinOR => !OneLeg(groups) && OneGroup(groups)
    case JoinAND => !OneLeg(groups) && AllApart(groups)
    case JoinMixed => !OneGroup(groups) && !AllApart(groups)
  }

  lemma SingletonIff<T>(s: set<T>)
    ensures |s| <= 1 <==> forall a, b :: a in s && b in s ==> a == b
  {
    if s != {} {
      var x :| x in s;
      var rest := s - {x};
      assert s == rest + {x};
      if |s| > 1 { var y :| y in rest; }
    }
  }

  /** Numbering without gaps uses up all numbers exactly when no two legs share one. */
  lemma {:induction false} CountIsLegsIff(groups: map<NodeId, nat>, count: nat)
    requires forall a :: a in groups ==> groups[a] < count
    requires forall i: nat :: i < count ==> Used(groups, i)
    ensures |groups| >= count && (|groups| == count <==> AllApart(groups))
    decreases count
  {
    if count == 0 {
      assert groups == map[];
    } else {
      var last := set a | a in groups && groups[a] == count - 1;
      var rest := map a | a in groups && groups[a] != count - 1 :: groups[a];
      assert Used(groups, count - 1);
      assert groups.Keys == rest.Keys + last;
      forall i: nat | i < count - 1 ensures Used(rest, i) {
        assert Used(groups, i);
        var a :| a in groups && groups[a] == i;
        assert a in rest && rest[a] == i;
      }
      CountIsLegsIff(rest, count - 1);
      SingletonIff(last);
      var x :| x in last;
      assert |last| >= 1;
      if AllApart(rest) && |last| <= 1 {
        forall a, b | a in groups && b in groups && groups[a] == groups[b] ensures a == b {
          if groups[a] == count - 1 { assert a in last && b in last; }
        }
      }
    }
  }

  lemma KindOfFits(groups: map<NodeId, nat>, count: nat)
    requires groups != map[]
    requires forall a :: a in groups ==> groups[a] < count
    requires forall i: nat :: i < count ==> Used(groups, i)
    ensures KindFits(KindOf(|groups|, count), groups)
  {
    CountIsLegsIff(groups, count);
    SingletonIff(groups.Keys);
    assert |groups.Keys| == |groups|;
    if count > 1 { assert Used(groups, 0) && Used(groups, 1); }
  }

  function KindOf(legs: nat, count: nat): JoinType {
    if legs == 1 then JoinNone
    else if count == 1 then JoinOR
    else if count == legs then JoinAND
    else JoinMixed
  }

  /** Merge the exclusive pairs and number the classes. */
  method GroupPairs(ghost adjacency: Adjacency, ghost join: NodeId, sources: seq<NodeId>, pairs: seq<Pair>)
    returns (groups: map<NodeId, nat>, count: nat)
    requires ExclusivePairs(adjacency, join, sources, pairs)
    requires forall j :: 0 <= j < |sources| ==> RowListed(adjacency, join, sources, pairs, j, |sources|)
    ensures Partitions(adjacency, join, Elements(sources), groups, count)
  {
    ghost var x := ExclusionGraph(adjacency, join, Elements(sources));
    var uf := new UnionFind.Forest(Elements(sources));
    InitiallySound(x, Elements(sources));
    PairsLinked(adjacency, join, sources, pairs);
    UniteAll(uf, pairs, x);
    MergedAll(adjacency, join, sources, pairs, uf.root);
    groups, count := NumberClasses(uf, sources);
  }

  /** The groups of one node's inbound legs. */
  method ClassifyJoin(g: CompiledGraph, id: NodeId) returns (kind: JoinType, groups: map<NodeId, nat>, count: nat)
    requires Wired(g) && id in g.nodes
    ensures Partitions(g.adjacency, id, Elements(Inbound(g, id)), groups, count)
    ensures count == 0 <==> Inbound(g, id) == []
    ensures if Inbound(g, id) == [] then kind == JoinNone else KindFits(kind, groups)
  {
    var inbound := Inbound(g, id);
    if inbound == [] {
      return JoinNone, map[], 0;
    }
    var sources := SortedStrings(Elements(inbound));
    assert Elements(sources) == Elements(inbound);
    var pairs := ListExclusivePairs(g, id, sources);
    groups, count := GroupPairs(g.adjacency, id, sources, pairs);
    kind := KindOf(|sources|, count);
    assert inbound[0] in groups;
    assert groups.Keys == Elements(inbound) && |groups| == |groups.Keys|;
    KindOfFits(groups, count);
  }

  lemma InitiallySound(x: Digraph, ids: set<NodeId>)
    ensures Sound(x, map a | a in ids :: a)
  {
    forall a | a in ids ensures Reaches(x, a, a) { ReachesSelf(x, a); }
  }

  lemma PairsLinked(adjacency: Adjacency, join: NodeId, sources: seq<NodeId>, pairs: seq<Pair>)
    requires ExclusivePairs(adjacency, join, sources, pairs)
    ensures var x := ExclusionGraph(adjacency, join, Elements(sources));
            forall p :: p in pairs ==> p.0 in Elements(sources) && p.1 in Elements(sources)
                                       && p.1 in Succ(x, p.0) && p.0 in Succ(x, p.1)
  {
    forall p | p in pairs ensures p.0 != p.1 && Exclusive(adjacency, join, p.1, p.0) {
      ExclusiveSymmetric(adjacency, join, p.0, p.1);
      var s :| Splits(adjacency, s, join, p.0, p.1);
    }
  }
}
