/** What `$ref` inlining (internal/config/refs.go) means: the resolved value is the original with
    every reference replaced by its definition, all the way down. */
module SchemaInlining {
  import opened Digraphs
  import opened JsonValues
  import opened SchemaRefs

  /** `r` is `v` with every reference replaced by the inlined definition that it names, through at
      most `depth` definitions inside one another; everything else is as in `v`. */
  ghost predicate InlinesWithin(depth: nat, reg: Registry, v: Json, r: Json)
    decreases depth, v
  {
    if v.Obj? && "$ref" in v.fields && v.fields["$ref"].Str? then
      var name := v.fields["$ref"].s;
      depth > 0 && name in reg && InlinesWithin(depth - 1, reg, Obj(reg[name]), r)
    else match v
      case Obj(fields) =>
        && r.Obj? && r.fields.Keys == fields.Keys
        && forall k :: k in fields ==> InlinesWithin(depth, reg, fields[k], r.fields[k])
      case Arr(items) =>
        && r.Arr? && |r.items| == |items|
        && forall i :: 0 <= i < |items| ==> InlinesWithin(depth, reg, items[i], r.items[i])
      case _ => r == v
  }

  ghost predicate Inlines(reg: Registry, v: Json, r: Json) {
    exists depth: nat :: InlinesWithin(depth, reg, v, r)
  }

  // ---------------------------------------------------------------------------
  // There is at most one inlined value

  lemma {:induction false} InlinedOnce(d: nat, d': nat, reg: Registry, v: Json, r: Json, r': Json)
    requires InlinesWithin(d, reg, v, r) && InlinesWithin(d', reg, v, r')
    ensures r == r'
    decreases d, v
  {
    if IsRef(v) {
      InlinedOnce(d - 1, d' - 1, reg, Obj(reg[RefName(v)]), r, r');
    } else if v.Obj? {
      forall k | k in v.fields ensures r.fields[k] == r'.fields[k] {
        InlinedOnce(d, d', reg, v.fields[k], r.fields[k], r'.fields[k]);
      }
      assert r.fields == r'.fields;
    } else if v.Arr? {
      forall i | 0 <= i < |v.items| ensures r.items[i] == r'.items[i] {
        InlinedOnce(d, d', reg, v.items[i], r.items[i], r'.items[i]);
      }
      assert r.items == r'.items;
    }
  }

  // ---------------------------------------------------------------------------
  // Resolution without errors inlines

  lemma FewerUnseenNames(reg: Registry, seen: seq<string>, name: string)
    requires name in reg && name !in seen
    ensures |Unseen(reg, seen + [name])| == |Unseen(reg, seen)| - 1
  {
    assert Unseen(reg, seen + [name]) == Unseen(reg, seen) - {name};
    assert name in Unseen(reg, seen);
  }

  lemma {:induction false} ResolutionInlines(v: Json, reg: Registry, seen: seq<string>)
    requires Resolve(v, reg, seen).errors == {}
    ensures InlinesWithin(|Unseen(reg, seen)|, reg, v, Resolve(v, reg, seen).value)
    decreases Unseen(reg, seen), v
  {
    if IsRef(v) {
      var name := RefName(v);
      FewerUnseen(reg, seen, name);
      FewerUnseenNames(reg, seen, name);
      ResolutionInlines(Obj(reg[name]), reg, seen + [name]);
    } else if v.Obj? {
      forall k | k in v.fields
        ensures InlinesWithin(|Unseen(reg, seen)|, reg, v.fields[k], Resolve(v.fields[k], reg, seen).value)
      {
        assert Resolve(v.fields[k], reg, seen).errors <= Resolve(v, reg, seen).errors;
        ResolutionInlines(v.fields[k], reg, seen);
      }
    } else if v.Arr? {
      forall i | 0 <= i < |v.items|
        ensures InlinesWithin(|Unseen(reg, seen)|, reg, v.items[i], Resolve(v.items[i], reg, seen).value)
      {
        assert Resolve(v.items[i], reg, seen).errors <= Resolve(v, reg, seen).errors;
        ResolutionInlines(v.items[i], reg, seen);
      }
    }
  }

  // ---------------------------------------------------------------------------
  // Whatever can be inlined is resolved without errors

  /** A name in a value that can be inlined has a definition that can be inlined one level less deep. */
  lemma {:induction false} NamedInlines(d: nat, reg: Registry, v: Json, r: Json, name: string) returns (r': Json)
    requires InlinesWithin(d, reg, v, r) && name in Names(v)
    ensures name in reg && d > 0 && InlinesWithin(d - 1, reg, Obj(reg[name]), r')
    decreases v
  {
    if IsRef(v) {
      r' := r;
    } else if v.Obj? {
      var k :| k in v.fields && name in Names(v.fields[k]);
      r' := NamedInlines(d, reg, v.fields[k], r.fields[k], name);
    } else {
      var i :| 0 <= i < |v.items| && name in Names(v.items[i]);
      r' := NamedInlines(d, reg, v.items[i], r.items[i], name);
    }
  }

  /** Chains of references out of a value that can be inlined are registered and no longer than its depth. */
  lemma {:induction false} ChainsAreShort(d: nat, reg: Registry, v: Json, r: Json, p: seq<string>)
    requires InlinesWithin(d, reg, v, r) && IsPath(RefGraph(reg), p) && p[0] in Names(v)
    ensures |p| <= d && p[|p|-1] in reg
    decreases |p|
  {
    var r' := NamedInlines(d, reg, v, r, p[0]);
    if |p| > 1 {
      assert p[1] in Succ(RefGraph(reg), p[0]);
      ChainsAreShort(d - 1, reg, Obj(reg[p[0]]), r', p[1..]);
    }
  }

  /** From a name that leads back to itself there are chains of any length. */
  lemma {:induction false} CyclesGoOn(g: Digraph, x: string, n: nat) returns (p: seq<string>)
    requires StrictlyReaches(g, x, x)
    ensures IsPath(g, p) && p[0] == x && |p| > n
    decreases n
  {
    if n == 0 {
      p := [x];
    } else {
      var q := CyclesGoOn(g, x, n - 1);
      var s :| s in Succ(g, x) && Reaches(g, s, x);
      var c :| PathFromTo(g, c, s, x);
      p := [x] + c + q[1..];
      JoinPaths(g, [x] + c, q);
    }
  }

  lemma JoinPaths(g: Digraph, a: seq<string>, b: seq<string>)
    requires IsPath(g, a) && IsPath(g, b) && a[|a|-1] == b[0]
    ensures IsPath(g, a + b[1..])
  {
    var p := a + b[1..];
    forall i | 0 <= i < |p| - 1 ensures p[i+1] in Succ(g, p[i]) {
      if i >= |a| - 1 { assert p[i] == b[i - (|a| - 1)] && p[i+1] == b[i + 1 - (|a| - 1)]; }
    }
  }

  lemma InlinableResolves(v: Json, reg: Registry, d: nat, r: Json)
    requires InlinesWithin(d, reg, v, r)
    ensures Resolve(v, reg, []).errors == {}
  {
    var g := RefGraph(reg);
    forall name, x | name in Names(v) && Reaches(g, name, x) ensures x in reg && !StrictlyReaches(g, x, x) {
      var p :| PathFromTo(g, p, name, x);
      ChainsAreShort(d, reg, v, r, p);
      if StrictlyReaches(g, x, x) {
        var q := CyclesGoOn(g, x, d);
        JoinPaths(g, p, q);
        ChainsAreShort(d, reg, v, r, p + q[1..]);
        assert false;
      }
    }
    ResolvesIffAcyclicAndRegistered(v, reg);
  }

  /** Resolution returns `r` and no error if and only if `r` is the inlined value. */
  lemma ResolvesToInlined(v: Json, reg: Registry, r: Json)
    ensures Resolve(v, reg, []) == Resolved(r, {}) <==> Inlines(reg, v, r)
  {
    if Resolve(v, reg, []).errors == {} { ResolutionInlines(v, reg, []); }
    if Inlines(reg, v, r) {
      var d: nat :| InlinesWithin(d, reg, v, r);
      InlinableResolves(v, reg, d, r);
      ResolutionInlines(v, reg, []);
      InlinedOnce(d, |Unseen(reg, [])|, reg, v, r, Resolve(v, reg, []).value);
    }
  }
}
