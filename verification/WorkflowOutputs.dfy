/** `ValidateOutputExclusivity` of internal/engine/exclusivity.go: the workflow.output nodes of a
    graph must have different names and be kept apart, two by two, by a common ancestor. */
module WorkflowOutputs {
  import opened Common
  import opened Digraphs
  import opened WorkflowGraph
  import GraphSearch

  datatype Conflict =
    | SameName(name: string, first: NodeId, second: NodeId)
    | NotExclusive(first: NodeId, second: NodeId)

  // ---------------------------------------------------------------------------
  // Specification

  /** A workflow.output node with a name; nameless ones are not looked at. */
  predicate IsOutput(nodes: map<NodeId, CompiledNode>, id: NodeId) {
    id in nodes && nodes[id].kind == "workflow.output" && nodes[id].name != ""
  }

  /** Output `o` of `x` leads to `t`. */
  ghost predicate Leads(adjacency: Adjacency, x: NodeId, o: string, t: NodeId) {
    && x in adjacency && o in adjacency[x]
    && exists s :: s in adjacency[x][o] && Reaches(ArrowsOf(adjacency), s, t)
  }

  /** The first output of `x`, in sorted order, that leads to `t`. */
  ghost predicate FirstLeading(adjacency: Adjacency, x: NodeId, o: string, t: NodeId) {
    Leads(adjacency, x, o, t) && forall o' :: Leads(adjacency, x, o', t) ==> Leq(o, o')
  }

  ghost predicate DifferentFirst(adjacency: Adjacency, x: NodeId, a: NodeId, b: NodeId) {
    exists o, o' :: o != o' && FirstLeading(adjacency, x, o, a) && FirstLeading(adjacency, x, o', b)
  }

  /** A common ancestor with several outputs, whose first outputs leading to the two differ. */
  ghost predicate KeepsApart(adjacency: Adjacency, x: NodeId, a: NodeId, b: NodeId) {
    && StrictlyReaches(ArrowsOf(adjacency), x, a) && StrictlyReaches(ArrowsOf(adjacency), x, b)
    && x in adjacency && |adjacency[x]| > 1
    && DifferentFirst(adjacency, x, a, b)
  }

  ghost predicate Separated(adjacency: Adjacency, a: NodeId, b: NodeId) {
    exists x :: KeepsApart(adjacency, x, a, b)
  }

  ghost predicate PairAllowed(nodes: map<NodeId, CompiledNode>, adjacency: Adjacency, a: NodeId, b: NodeId)
    requires a in nodes && b in nodes
  {
    nodes[a].name != nodes[b].name && Separated(adjacency, a, b)
  }

  ghost predicate Allowed(nodes: map<NodeId, CompiledNode>, adjacency: Adjacency) {
    forall a, b :: IsOutput(nodes, a) && IsOutput(nodes, b) && a != b ==> PairAllowed(nodes, adjacency, a, b)
  }

  ghost predicate IsConflict(nodes: map<NodeId, CompiledNode>, adjacency: Adjacency, c: Conflict) {
    && IsOutput(nodes, c.first) && IsOutput(nodes, c.second) && c.first != c.second
    && match c
       case SameName(name, a, b) => nodes[a].name == nodes[b].name == name
       case NotExclusive(a, b) => !Separated(adjacency, a, b)
  }

  lemma SeparatedSymmetric(adjacency: Adjacency, a: NodeId, b: NodeId)
    requires Separated(adjacency, a, b)
    ensures Separated(adjacency, b, a)
  {
    var x :| KeepsApart(adjacency, x, a, b);
    assert KeepsApart(adjacency, x, b, a);
  }

  lemma ConflictForbids(nodes: map<NodeId, CompiledNode>, adjacency: Adjacency, c: Conflict)
    requires IsConflict(nodes, adjacency, c)
    ensures !Allowed(nodes, adjacency)
  {
    assert !PairAllowed(nodes, adjacency, c.first, c.second);
  }

  // ---------------------------------------------------------------------------
  // The check

  /** The first output, in sorted order, from which a search reaches the target. */
  method FindOutputLeadingTo(g: CompiledGraph, ancestor: NodeId, target: NodeId) returns (o: Option<string>)
    requires Wired(g) && ancestor in g.nodes
    ensures o.None? ==> forall o' :: !Leads(g.adjacency, ancestor, o', target)
    ensures o.Some? ==> FirstLeading(g.adjacency, ancestor, o.value, target)
  {
    var outputs := g.adjacency[ancestor];
    var names := SortedStrings(outputs.Keys);
    for i := 0 to |names|
      invariant forall k :: 0 <= k < i ==> !Leads(g.adjacency, ancestor, names[k], target)
    {
      assert names[i] in names;
      var found := GraphSearch.ReachableFrom(g, outputs[names[i]], target);
      if found {
        FirstIsFirst(g.adjacency, ancestor, target, names, i);
        return Some(names[i]);
      }
    }
    o := None;
    forall o' ensures !Leads(g.adjacency, ancestor, o', target) {
      if o' in outputs { assert o' in names; }
    }
  }

  lemma FirstIsFirst(adjacency: Adjacency, x: NodeId, t: NodeId, names: seq<string>, i: nat)
    requires x in adjacency && StrictlySorted(names) && i < |names|
    requires forall o :: o in names <==> o in adjacency[x]
    requires Leads(adjacency, x, names[i], t)
    requires forall k :: 0 <= k < i ==> !Leads(adjacency, x, names[k], t)
    ensures FirstLeading(adjacency, x, names[i], t)
  {
    forall o' | Leads(adjacency, x, o', t) ensures Leq(names[i], o') {
      assert o' in names;
      var k :| 0 <= k < |names| && names[k] == o';
      LeqTotal(o', o');
    }
  }

  /** What one candidate ancestor says. */
  method KeepsThemApart(g: CompiledGraph, x: NodeId, a: NodeId, b: NodeId) returns (yes: bool)
    requires Wired(g) && x in g.nodes
    requires StrictlyReaches(Arrows(g), x, a) && StrictlyReaches(Arrows(g), x, b)
    ensures yes <==> KeepsApart(g.adjacency, x, a, b)
  {
    if |g.adjacency[x]| <= 1 { return false; }
    var o := FindOutputLeadingTo(g, x, a);
    var o' := FindOutputLeadingTo(g, x, b);
    yes := o.Some? && o'.Some? && o.value != o'.value;
    FirstUnique(g.adjacency, x, a, o);
    FirstUnique(g.adjacency, x, b, o');
  }

  lemma FirstUnique(adjacency: Adjacency, x: NodeId, t: NodeId, o: Option<string>)
    requires o.None? ==> forall o' :: !Leads(adjacency, x, o', t)
    requires o.Some? ==> FirstLeading(adjacency, x, o.value, t)
    ensures forall o' :: FirstLeading(adjacency, x, o', t) <==> o == Some(o')
  {
    forall o' | FirstLeading(adjacency, x, o', t) ensures o == Some(o') {
      LeqAntisymmetric(o.value, o');
    }
  }

  /** `areMutuallyExclusive`. */
  method AreMutuallyExclusive(g: CompiledGraph, a: NodeId, b: NodeId) returns (yes: bool)
    requires Wired(g)
    ensures yes <==> Separated(g.adjacency, a, b)
  {
    var ancA := GraphSearch.TraceAncestors(g, a);
    var ancB := GraphSearch.TraceAncestors(g, b);
    var todo := ancA;
    while todo != {}
      invariant todo <= ancA
      invariant forall x :: x in ancA - todo ==> !KeepsApart(g.adjacency, x, a, b)
      decreases todo
    {
      var x :| x in todo;
      if x in ancB {
        assert x in Arrows(g);
        var apart := KeepsThemApart(g, x, a, b);
        if apart { return true; }
      }
      todo := todo - {x};
    }
    yes := false;
  }

  /** The named outputs in some order, or two that share a name. */
  method CollectOutputs(nodes: map<NodeId, CompiledNode>, ghost adjacency: Adjacency)
    returns (outputs: seq<NodeId>, conflict: Option<Conflict>)
    ensures conflict.Some? ==> IsConflict(nodes, adjacency, conflict.value)
    ensures conflict.None? ==> forall a :: a in outputs <==> IsOutput(nodes, a)
    ensures conflict.None? ==> forall i, j :: 0 <= i < j < |outputs| ==> outputs[i] != outputs[j]
    ensures conflict.None? ==>
      forall a, b :: IsOutput(nodes, a) && IsOutput(nodes, b) && a != b ==> nodes[a].name != nodes[b].name
  {
    outputs, conflict := [], None;
    var byName: map<string, NodeId> := map[];
    var todo := nodes.Keys;
    while todo != {}
      invariant todo <= nodes.Keys && conflict.None?
      invariant forall a :: a in outputs <==> a !in todo && IsOutput(nodes, a)
      invariant forall i, j :: 0 <= i < j < |outputs| ==> outputs[i] != outputs[j]
      invariant forall a :: a in outputs ==> nodes[a].name in byName && byName[nodes[a].name] == a
      invariant forall name :: name in byName ==> byName[name] in outputs && nodes[byName[name]].name == name
      decreases todo
    {
      var id :| id in todo;
      if IsOutput(nodes, id) {
        var name := nodes[id].name;
        if name in byName { return outputs, Some(SameName(name, byName[name], id)); }
        byName := byName[name := id];
        outputs := outputs + [id];
      }
      todo := todo - {id};
    }
  }

  /** One output against the ones after it. */
  method CompareRow(g: CompiledGraph, outputs: seq<NodeId>, i: nat) returns (clash: Option<nat>)
    requires Wired(g) && i < |outputs|
    ensures clash.Some? ==> i < clash.value < |outputs| && !Separated(g.adjacency, outputs[i], outputs[clash.value])
    ensures clash.None? ==> forall j :: i < j < |outputs| ==> Separated(g.adjacency, outputs[i], outputs[j])
  {
    for j := i + 1 to |outputs|
      invariant forall k :: i < k < j ==> Separated(g.adjacency, outputs[i], outputs[k])
    {
      var apart := AreMutuallyExclusive(g, outputs[i], outputs[j]);
      if !apart { return Some(j); }
    }
    clash := None;
  }

  /** The comparison of all pairs. */
  method CompareAll(g: CompiledGraph, outputs: seq<NodeId>) returns (clash: Option<(nat, nat)>)
    requires Wired(g)
    ensures clash.Some? ==> clash.value.0 < clash.value.1 < |outputs|
    ensures clash.Some? ==> !Separated(g.adjacency, outputs[clash.value.0], outputs[clash.value.1])
    ensures clash.None? ==> forall i, j :: 0 <= i < j < |outputs| ==> Separated(g.adjacency, outputs[i], outputs[j])
  {
    for i := 0 to |outputs|
      invariant forall k, j :: 0 <= k < i && k < j < |outputs| ==> Separated(g.adjacency, outputs[k], outputs[j])
    {
      var j := CompareRow(g, outputs, i);
      if j.Some? { return Some((i, j.value)); }
    }
    clash := None;
  }

  lemma AllPairsAllowed(nodes: map<NodeId, CompiledNode>, adjacency: Adjacency, outputs: seq<NodeId>)
    requires forall a :: a in outputs <==> IsOutput(nodes, a)
    requires forall a, b :: IsOutput(nodes, a) && IsOutput(nodes, b) && a != b ==> nodes[a].name != nodes[b].name
    requires forall i, j :: 0 <= i < j < |outputs| ==> Separated(adjacency, outputs[i], outputs[j])
    ensures Allowed(nodes, adjacency)
  {
    forall a, b | IsOutput(nodes, a) && IsOutput(nodes, b) && a != b ensures PairAllowed(nodes, adjacency, a, b) {
      assert a in outputs && b in outputs;
      var i :| 0 <= i < |outputs| && outputs[i] == a;
      var j :| 0 <= j < |outputs| && outputs[j] == b;
      if j < i { SeparatedSymmetric(adjacency, b, a); }
    }
  }

  /** No conflict if and only if all named outputs have different names and are kept apart, two by
      two; a conflict names two outputs that are not. */
  method Validate(g: CompiledGraph) returns (conflict: Option<Conflict>)
    requires Wired(g)
    ensures conflict.None? <==> Allowed(g.nodes, g.adjacency)
    ensures conflict.Some? ==> IsConflict(g.nodes, g.adjacency, conflict.value)
  {
    var outputs;
    outputs, conflict := CollectOutputs(g.nodes, g.adjacency);
    if conflict.None? && |outputs| > 1 {
      var clash := CompareAll(g, outputs);
      if clash.Some? { conflict := Some(NotExclusive(outputs[clash.value.0], outputs[clash.value.1])); }
    }
    if conflict.Some? {
      ConflictForbids(g.nodes, g.adjacency, conflict.value);
    } else {
      AllPairsAllowed(g.nodes, g.adjacency, outputs);
    }
  }
}
