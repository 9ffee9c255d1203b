/** Paths, reachability and acyclicity in finite directed graphs: the relational
    specification that the graph searches and the executor are proved against. */
module Digraphs {

  type Vertex = string

  /** Successor sets; a vertex that is not a key has no successors. */
  type Digraph = map<Vertex, set<Vertex>>

  function Succ(g: Digraph, u: Vertex): set<Vertex> {
    if u in g then g[u] else {}
  }

  ghost predicate IsPath(g: Digraph, p: seq<Vertex>) {
    |p| > 0 && forall i :: 0 <= i < |p| - 1 ==> p[i+1] in Succ(g, p[i])
  }

  ghost predicate PathFromTo(g: Digraph, p: seq<Vertex>, u: Vertex, v: Vertex) {
    IsPath(g, p) && p[0] == u && p[|p|-1] == v
  }

  /** Reflexive reachability. */
  ghost predicate Reaches(g: Digraph, u: Vertex, v: Vertex) {
    exists p :: PathFromTo(g, p, u, v)
  }

  /** Reachability along at least one edge. */
  ghost predicate StrictlyReaches(g: Digraph, u: Vertex, v: Vertex) {
    exists w :: w in Succ(g, u) && Reaches(g, w, v)
  }

  ghost predicate Acyclic(g: Digraph) {
    forall u :: !StrictlyReaches(g, u, u)
  }

  /** A closed walk with at least one edge, its first vertex repeated at the end. */
  ghost predicate IsCycle(g: Digraph, c: seq<Vertex>) {
    |c| >= 2 && IsPath(g, c) && c[0] == c[|c|-1]
  }

  lemma ReachesSelf(g: Digraph, u: Vertex)
    ensures Reaches(g, u, u)
  {
    assert PathFromTo(g, [u], u, u);
  }

  lemma {:induction false} ReachesEdgeThen(g: Digraph, u: Vertex, w: Vertex, v: Vertex)
    requires w in Succ(g, u) && Reaches(g, w, v)
    ensures Reaches(g, u, v)
  {
    var p :| PathFromTo(g, p, w, v);
    assert PathFromTo(g, [u] + p, u, v);
  }

  lemma {:induction false} ReachesThenEdge(g: Digraph, u: Vertex, w: Vertex, v: Vertex)
    requires Reaches(g, u, w) && v in Succ(g, w)
    ensures Reaches(g, u, v)
  {
    var p :| PathFromTo(g, p, u, w);
    assert PathFromTo(g, p + [v], u, v);
  }

  lemma {:induction false} ReachesTransitive(g: Digraph, u: Vertex, w: Vertex, v: Vertex)
    requires Reaches(g, u, w) && Reaches(g, w, v)
    ensures Reaches(g, u, v)
  {
    var p :| PathFromTo(g, p, u, w);
    var q :| PathFromTo(g, q, w, v);
    var r := p + q[1..];
    forall i | 0 <= i < |r| - 1 ensures r[i+1] in Succ(g, r[i]) {
      if i >= |p| - 1 { assert r[i] == q[i - |p| + 1] && r[i+1] == q[i - |p| + 2]; }
    }
    assert PathFromTo(g, r, u, v);
  }

  /** Walking a path never leaves a successor-closed set. */
  lemma {:induction false} ClosedHoldsPath(g: Digraph, s: set<Vertex>, p: seq<Vertex>)
    requires IsPath(g, p) && p[0] in s
    requires forall x :: x in s ==> Succ(g, x) <= s
    ensures p[|p|-1] in s
    decreases |p|
  {
    if |p| > 1 { ClosedHoldsPath(g, s, p[1..]); }
  }

  lemma ClosedHoldsReachable(g: Digraph, s: set<Vertex>, u: Vertex, v: Vertex)
    requires u in s && Reaches(g, u, v)
    requires forall x :: x in s ==> Succ(g, x) <= s
    ensures v in s
  {
    var p :| PathFromTo(g, p, u, v);
    ClosedHoldsPath(g, s, p);
  }

  /** Walking a path backwards never leaves a predecessor-closed set. */
  lemma {:induction false} PreclosedHoldsReaching(g: Digraph, s: set<Vertex>, p: seq<Vertex>)
    requires IsPath(g, p) && p[|p|-1] in s
    requires forall x, y :: y in s && y in Succ(g, x) ==> x in s
    ensures p[0] in s
    decreases |p|
  {
    if |p| > 1 { PreclosedHoldsReaching(g, s, p[..|p|-1]); }
  }

  /** A cycle as a list of vertices exists exactly when the graph is not acyclic. */
  lemma {:induction false} CycleIffNotAcyclic(g: Digraph)
    ensures (exists c :: IsCycle(g, c)) <==> !Acyclic(g)
  {
    if c :| IsCycle(g, c) {
      assert PathFromTo(g, c[1..], c[1], c[0]);
      assert StrictlyReaches(g, c[0], c[0]);
    }
    if u :| StrictlyReaches(g, u, u) {
      var w :| w in Succ(g, u) && Reaches(g, w, u);
      var p :| PathFromTo(g, p, w, u);
      assert IsCycle(g, [u] + p);
    }
  }

  /** A numbering that strictly falls along every edge. */
  ghost predicate Ranked(g: Digraph, rank: map<Vertex, nat>) {
    forall u, v :: u in rank && v in Succ(g, u) ==> v in rank && rank[v] < rank[u]
  }

  lemma {:induction false} RankFalls(g: Digraph, rank: map<Vertex, nat>, p: seq<Vertex>)
    requires Ranked(g, rank) && IsPath(g, p) && p[0] in rank
    ensures p[|p|-1] in rank && rank[p[|p|-1]] <= rank[p[0]]
    decreases |p|
  {
    if |p| > 1 {
      assert p[1] in Succ(g, p[0]);
      RankFalls(g, rank, p[1..]);
    }
  }

  lemma RankedIsAcyclic(g: Digraph, rank: map<Vertex, nat>)
    requires Ranked(g, rank) && g.Keys <= rank.Keys
    ensures Acyclic(g)
  {
    forall u ensures !StrictlyReaches(g, u, u) {
      if w :| w in Succ(g, u) && Reaches(g, w, u) {
        var p :| PathFromTo(g, p, w, u);
        RankFalls(g, rank, p);
      }
    }
  }

  // ---------------------------------------------------------------------------
  // Finite acyclic graphs have a source

  ghost predicate HasNoPredecessor(g: Digraph, v: Vertex) {
    forall u :: u in g ==> v !in g[u]
  }

  ghost function Ancestors(g: Digraph, v: Vertex): set<Vertex> {
    set u | u in g && StrictlyReaches(g, u, v)
  }

  lemma {:induction false} SourceAbove(g: Digraph, v: Vertex) returns (s: Vertex)
    requires Acyclic(g) && v in g
    ensures s in g && HasNoPredecessor(g, s) && Reaches(g, s, v)
    decreases |Ancestors(g, v)|
  {
    if HasNoPredecessor(g, v) {
      s := v;
      ReachesSelf(g, v);
    } else {
      var u :| u in g && v in g[u];
      assert Ancestors(g, u) < Ancestors(g, v) by {
        ReachesSelf(g, v);
        assert u in Ancestors(g, v);
        forall x | x in Ancestors(g, u) ensures x in Ancestors(g, v) {
          var w :| w in Succ(g, x) && Reaches(g, w, u);
          ReachesThenEdge(g, w, u, v);
        }
      }
      ProperSubsetSmaller(Ancestors(g, u), Ancestors(g, v));
      s := SourceAbove(g, u);
      ReachesThenEdge(g, s, u, v);
    }
  }

  lemma ProperSubsetSmaller<T>(a: set<T>, b: set<T>)
    requires a < b
    ensures |a| < |b|
  {
    assert b == a + (b - a);
  }
}
