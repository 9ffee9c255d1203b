/** The disjoint-set forest of internal/engine/compiler.go, with path halving. */
module UnionFind {

  type Id = string

  /** `x`'s link stays inside its class and leads towards the representative, with a depth
      that falls so that every walk upwards ends. */
  ghost predicate Placed(parent: map<Id, Id>, root: map<Id, Id>, depth: map<Id, nat>, x: Id) {
    && x in parent && x in root && x in depth
    && parent[x] in parent && parent[x] in root && parent[x] in depth && root[parent[x]] == root[x]
    && root[x] in parent && parent[root[x]] == root[x]
    && if parent[x] == x then root[x] == x else depth[parent[x]] < depth[x]
  }

  ghost predicate IsForest(parent: map<Id, Id>, root: map<Id, Id>, depth: map<Id, nat>) {
    && root.Keys == parent.Keys && depth.Keys == parent.Keys
    && forall x {:trigger Placed(parent, root, depth, x)} :: x in parent ==> Placed(parent, root, depth, x)
  }

  function Merged(root: map<Id, Id>, a: Id, b: Id): map<Id, Id>
    requires a in root && b in root
  {
    map x | x in root :: if root[x] == root[b] then root[a] else root[x]
  }

  /** Pointing a non-root higher up within its class disturbs no element. */
  lemma Relink(parent: map<Id, Id>, root: map<Id, Id>, depth: map<Id, nat>, x: Id, up: Id, y: Id)
    requires Placed(parent, root, depth, x) && Placed(parent, root, depth, y)
    requires up in parent && up in root && up in depth
    requires parent[x] != x && root[up] == root[x] && depth[up] < depth[x]
    ensures Placed(parent[x := up], root, depth, y)
  {
  }

  lemma Halve(parent: map<Id, Id>, root: map<Id, Id>, depth: map<Id, nat>, x: Id) returns (up: Id)
    requires IsForest(parent, root, depth) && x in parent && parent[x] != x
    ensures parent[x] in parent && up == parent[parent[x]]
    ensures up in parent && root[up] == root[x] && depth[up] < depth[x]
    ensures IsForest(parent[x := up], root, depth)
  {
    assert Placed(parent, root, depth, x);
    assert Placed(parent, root, depth, parent[x]);
    up := parent[parent[x]];
    assert Placed(parent, root, depth, up);
    var parent' := parent[x := up];
    forall y | y in parent' ensures Placed(parent', root, depth, y) {
      assert Placed(parent, root, depth, y);
      Relink(parent, root, depth, x, up, y);
    }
  }

  lemma Regraft(parent: map<Id, Id>, root: map<Id, Id>, depth: map<Id, nat>, ra: Id, rb: Id,
                root': map<Id, Id>, depth': map<Id, nat>, y: Id)
    requires root.Keys == root'.Keys == depth.Keys == depth'.Keys == parent.Keys
    requires Placed(parent, root, depth, ra) && Placed(parent, root, depth, rb) && Placed(parent, root, depth, y)
    requires root[ra] == ra && root[rb] == rb && ra != rb
    requires forall x :: x in root ==>
      && root'[x] == (if root[x] == rb then ra else root[x])
      && depth'[x] == if root[x] == rb then depth[x] + depth[ra] + 1 else depth[x]
    ensures Placed(parent[rb := ra], root', depth', y)
  {
    assert root'[y] == if root[y] == rb then ra else root[y];
    assert root'[parent[y]] == root'[y];
  }

  lemma Graft(parent: map<Id, Id>, root: map<Id, Id>, depth: map<Id, nat>, ra: Id, rb: Id)
    returns (root': map<Id, Id>, depth': map<Id, nat>)
    requires IsForest(parent, root, depth) && ra in root && rb in root
    requires root[ra] == ra && root[rb] == rb && ra != rb
    ensures root' == Merged(root, ra, rb) && IsForest(parent[rb := ra], root', depth')
  {
    var lift := depth[ra] + 1;
    depth' := map x | x in depth :: if root[x] == rb then depth[x] + lift else depth[x];
    assert Placed(parent, root, depth, ra) && Placed(parent, root, depth, rb);
    root' := Merged(root, ra, rb);
    var parent' := parent[rb := ra];
    forall y | y in parent' ensures Placed(parent', root', depth', y) {
      assert Placed(parent, root, depth, y);
      Regraft(parent, root, depth, ra, rb, root', depth', y);
    }
  }

  class Forest {
    var parent: map<Id, Id>
    /** The representative of every element. */
    ghost var root: map<Id, Id>
    ghost var depth: map<Id, nat>

    ghost predicate Valid()
      reads this
    {
      IsForest(parent, root, depth)
    }

    constructor (ids: set<Id>)
      ensures Valid()
      ensures root == map x | x in ids :: x
    {
      parent := map x | x in ids :: x;
      root := map x | x in ids :: x;
      depth := map x | x in ids :: 0;
    }

    /** Path halving returns the representative and leaves the partition alone; `x` ends up linked to
        what was the link of its link. */
    method Find(x: Id) returns (r: Id)
      requires Valid() && x in root
      modifies this`parent
      ensures Valid()
      ensures r == root[x] && r in root && root[r] == r
      ensures old(parent)[x] in old(parent) && parent[x] == old(parent)[old(parent)[x]]
    {
      r := x;
      assert Placed(parent, root, depth, x);
      while parent[r] != r
        invariant Valid() && r in parent && root[r] == root[x]
        invariant if r == x then parent == old(parent)
                  else depth[r] < depth[x] && parent[x] == old(parent)[old(parent)[x]]
        decreases depth[r]
      {
        ghost var up := Halve(parent, root, depth, r);
        parent := parent[r := parent[parent[r]]];
        r := parent[r];
      }
      assert Placed(parent, root, depth, r);
    }

    /** Merges exactly the classes of `a` and `b`. */
    method Union(a: Id, b: Id)
      requires Valid() && a in root && b in root
      modifies this
      ensures Valid()
      ensures root == Merged(old(root), a, b)
    {
      var ra := Find(a);
      var rb := Find(b);
      if ra != rb {
        ghost var root', depth' := Graft(parent, root, depth, ra, rb);
        parent := parent[rb := ra];
        root, depth := root', depth';
      } else {
        assert root == Merged(root, a, b);
      }
    }
  }
}
