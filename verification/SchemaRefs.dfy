/** `$ref` inlining of internal/config/refs.go over a registry that may be cyclic. */
module SchemaRefs {
  import opened Digraphs
  import opened JsonValues

  /** Registered definitions are objects. */
  type Registry = map<string, map<string, Json>>

  datatype RefError = Circular(path: seq<string>) | Unresolved(name: string)

  /** The resolved value and the errors met. Go visits object fields in random order, so the errors
      form a set. */
  datatype Resolved = Resolved(value: Json, errors: set<RefError>)

  /** An object whose "$ref" is a string stands for a registered schema. */
  predicate IsRef(v: Json) {
    v.Obj? && "$ref" in v.fields && v.fields["$ref"].Str?
  }

  function RefName(v: Json): string
    requires IsRef(v)
  {
    v.fields["$ref"].s
  }

  ghost function Unseen(reg: Registry, seen: seq<string>): set<string> {
    reg.Keys - set x | x in seen
  }

  lemma FewerUnseen(reg: Registry, seen: seq<string>, name: string)
    requires name in reg && name !in seen
    ensures Unseen(reg, seen + [name]) < Unseen(reg, seen)
  {
    assert name in Unseen(reg, seen) && name !in Unseen(reg, seen + [name]);
  }

  /** `resolveRefsInValue`; it ends on every registry because each step into a definition leaves
      fewer names unseen. */
  function Resolve(v: Json, reg: Registry, seen: seq<string>): Resolved
    decreases Unseen(reg, seen), v, 1
  {
    if IsRef(v) then ResolveRef(RefName(v), reg, seen, v)
    else match v
      case Obj(fields) =>
        Resolved(Obj(map k | k in fields :: Resolve(fields[k], reg, seen).value),
                 set k, e | k in fields && e in Resolve(fields[k], reg, seen).errors :: e)
      case Arr(items) =>
        Resolved(Arr(seq(|items|, i requires 0 <= i < |items| => Resolve(items[i], reg, seen).value)),
                 set i, e | 0 <= i < |items| && e in Resolve(items[i], reg, seen).errors :: e)
      case _ => Resolved(v, {})
  }

  /** `resolveRef`; `at` is the object that holds the reference. */
  function ResolveRef(name: string, reg: Registry, seen: seq<string>, ghost at: Json): Resolved
    decreases Unseen(reg, seen), at, 0
  {
    if name in seen then Resolved(Null, {Circular(seen + [name])})
    else if name !in reg then Resolved(Null, {Unresolved(name)})
    else
      FewerUnseen(reg, seen, name);
      Resolve(Obj(reg[name]), reg, seen + [name])
  }

  // ---------------------------------------------------------------------------
  // Specification

  /** The names a value refers to directly. */
  function Names(v: Json): set<string> {
    if IsRef(v) then {RefName(v)}
    else match v
      case Obj(fields) => set k, r | k in fields && r in Names(fields[k]) :: r
      case Arr(items) => set i, r | 0 <= i < |items| && r in Names(items[i]) :: r
      case _ => {}
  }

  /** Which definitions refer to which names. */
  ghost function RefGraph(reg: Registry): Digraph {
    map name | name in reg :: Names(Obj(reg[name]))
  }

  /** A name that is registered, does not lead back to itself, and is not among `seen`. */
  ghost predicate Sound(reg: Registry, seen: seq<string>, name: string) {
    name in reg && name !in seen && !StrictlyReaches(RefGraph(reg), name, name)
  }

  /** Everything that `v` refers to, directly or through definitions, is sound. */
  ghost predicate Resolvable(v: Json, reg: Registry, seen: seq<string>) {
    forall r, x :: r in Names(v) && Reaches(RefGraph(reg), r, x) ==> Sound(reg, seen, x)
  }

  /** No reference object anywhere. */
  ghost predicate RefFree(v: Json) {
    && !IsRef(v)
    && match v
       case Obj(fields) => forall k :: k in fields ==> RefFree(fields[k])
       case Arr(items) => forall i :: 0 <= i < |items| ==> RefFree(items[i])
       case _ => true
  }

  // ---------------------------------------------------------------------------
  // Errors appear exactly when something reachable is unsound

  /** A definition can be inlined exactly when everything reachable from its name is sound. */
  lemma StepIntoDefinition(name: string, reg: Registry, seen: seq<string>)
    requires name in reg && name !in seen
    ensures Resolvable(Obj(reg[name]), reg, seen + [name]) <==>
            forall x :: Reaches(RefGraph(reg), name, x) ==> Sound(reg, seen, x)
  {
    var g := RefGraph(reg);
    assert Succ(g, name) == Names(Obj(reg[name]));
    if forall x :: Reaches(g, name, x) ==> Sound(reg, seen, x) {
      forall r, x | r in Names(Obj(reg[name])) && Reaches(g, r, x) ensures Sound(reg, seen + [name], x) {
        ReachesEdgeThen(g, name, r, x);
        ReachesSelf(g, name);
        assert Sound(reg, seen, x) && Sound(reg, seen, name);
      }
    }
    if Resolvable(Obj(reg[name]), reg, seen + [name]) {
      forall x | Reaches(g, name, x) ensures Sound(reg, seen, x) {
        var p :| PathFromTo(g, p, name, x);
        if |p| == 1 {
          assert !Sound(reg, seen + [name], name);
          assert forall r :: r in Names(Obj(reg[name])) ==> !Reaches(g, r, name);
        } else {
          assert PathFromTo(g, p[1..], p[1], x);
          assert p[1] in Succ(g, name);
          assert Sound(reg, seen + [name], x);
        }
      }
    }
  }

  lemma {:induction false} RefErrorsExactly(v: Json, reg: Registry, seen: seq<string>)
    requires IsRef(v)
    ensures Resolve(v, reg, seen).errors == {} <==> Resolvable(v, reg, seen)
    decreases Unseen(reg, seen), v, 0
  {
    var name := RefName(v);
    var g := RefGraph(reg);
    ReachesSelf(g, name);
    if name in seen || name !in reg {
      assert !Sound(reg, seen, name);
      assert name in Names(v);
    } else {
      FewerUnseen(reg, seen, name);
      ErrorsExactly(Obj(reg[name]), reg, seen + [name]);
      StepIntoDefinition(name, reg, seen);
    }
  }

  /** Resolution reports no error if and only if every name reachable from the value is registered,
      lies on no reference cycle, and is not already being expanded. */
  lemma {:induction false} ErrorsExactly(v: Json, reg: Registry, seen: seq<string>)
    ensures Resolve(v, reg, seen).errors == {} <==> Resolvable(v, reg, seen)
    decreases Unseen(reg, seen), v, 1
  {
    if IsRef(v) {
      RefErrorsExactly(v, reg, seen);
    } else if v.Obj? {
      forall k | k in v.fields
        ensures Resolve(v.fields[k], reg, seen).errors == {} <==> Resolvable(v.fields[k], reg, seen)
      {
        ErrorsExactly(v.fields[k], reg, seen);
      }
      ObjectErrors(v, reg, seen);
    } else if v.Arr? {
      forall i | 0 <= i < |v.items|
        ensures Resolve(v.items[i], reg, seen).errors == {} <==> Resolvable(v.items[i], reg, seen)
      {
        ErrorsExactly(v.items[i], reg, seen);
      }
      ArrayErrors(v, reg, seen);
    }
  }

  lemma ObjectErrors(v: Json, reg: Registry, seen: seq<string>)
    requires !IsRef(v) && v.Obj?
    requires forall k :: k in v.fields ==>
      (Resolve(v.fields[k], reg, seen).errors == {} <==> Resolvable(v.fields[k], reg, seen))
    ensures Resolve(v, reg, seen).errors == {} <==> Resolvable(v, reg, seen)
  {
    var errors := Resolve(v, reg, seen).errors;
    if errors == {} {
      forall r, x | r in Names(v) && Reaches(RefGraph(reg), r, x) ensures Sound(reg, seen, x) {
        var k :| k in v.fields && r in Names(v.fields[k]);
        assert Resolve(v.fields[k], reg, seen).errors <= errors;
      }
    }
    if Resolvable(v, reg, seen) {
      forall k | k in v.fields ensures Resolve(v.fields[k], reg, seen).errors == {} {
        assert Names(v.fields[k]) <= Names(v);
        assert Resolvable(v.fields[k], reg, seen);
      }
    }
  }

  lemma ArrayErrors(v: Json, reg: Registry, seen: seq<string>)
    requires v.Arr?
    requires forall i :: 0 <= i < |v.items| ==>
      (Resolve(v.items[i], reg, seen).errors == {} <==> Resolvable(v.items[i], reg, seen))
    ensures Resolve(v, reg, seen).errors == {} <==> Resolvable(v, reg, seen)
  {
    var errors := Resolve(v, reg, seen).errors;
    if errors == {} {
      forall r, x | r in Names(v) && Reaches(RefGraph(reg), r, x) ensures Sound(reg, seen, x) {
        var i :| 0 <= i < |v.items| && r in Names(v.items[i]);
        assert Resolve(v.items[i], reg, seen).errors <= errors;
      }
    }
    if Resolvable(v, reg, seen) {
      forall i | 0 <= i < |v.items| ensures Resolve(v.items[i], reg, seen).errors == {} {
        assert Names(v.items[i]) <= Names(v);
        assert Resolvable(v.items[i], reg, seen);
      }
    }
  }

  /** The top-level form: no errors if and only if everything reachable is registered and acyclic. */
  lemma ResolvesIffAcyclicAndRegistered(v: Json, reg: Registry)
    ensures Resolve(v, reg, []).errors == {} <==>
      forall r, x :: r in Names(v) && Reaches(RefGraph(reg), r, x) ==>
        x in reg && !StrictlyReaches(RefGraph(reg), x, x)
  {
    ErrorsExactly(v, reg, []);
    if Resolvable(v, reg, []) {
      forall r, x | r in Names(v) && Reaches(RefGraph(reg), r, x)
        ensures x in reg && !StrictlyReaches(RefGraph(reg), x, x) { assert Sound(reg, [], x); }
    }
  }

  /** The names being expanded form a chain of references that leads to `v`. */
  ghost predicate LeadsTo(reg: Registry, seen: seq<string>, v: Json) {
    seen == [] || (IsPath(RefGraph(reg), seen) && Names(v) <= Succ(RefGraph(reg), seen[|seen|-1]))
  }

  /** The error names something wrong: an unregistered name that `v` leads to, or a chain of
      references that returns to one of its own names. */
  ghost predicate Real(v: Json, reg: Registry, e: RefError) {
    match e
    case Unresolved(n) => n !in reg && exists r :: r in Names(v) && Reaches(RefGraph(reg), r, n)
    case Circular(p) => IsPath(RefGraph(reg), p) && p[|p|-1] in p[..|p|-1]
  }

  lemma RefErrorIsReal(v: Json, reg: Registry, seen: seq<string>, e: RefError)
    requires IsRef(v) && LeadsTo(reg, seen, v)
    requires RefName(v) in seen || RefName(v) !in reg
    requires e in Resolve(v, reg, seen).errors
    ensures Real(v, reg, e)
  {
    var name := RefName(v);
    if name in seen {
      assert (seen + [name])[..|seen|] == seen;
    } else {
      ReachesSelf(RefGraph(reg), name);
      assert name in Names(v);
    }
  }

  /** Every reported error is real. */
  lemma {:induction false} ErrorsAreReal(v: Json, reg: Registry, seen: seq<string>, e: RefError)
    requires LeadsTo(reg, seen, v) && e in Resolve(v, reg, seen).errors
    ensures Real(v, reg, e)
    decreases Unseen(reg, seen), v
  {
    if IsRef(v) {
      var name := RefName(v);
      if name in seen || name !in reg {
        RefErrorIsReal(v, reg, seen, e);
      } else {
        FewerUnseen(reg, seen, name);
        assert LeadsTo(reg, seen + [name], Obj(reg[name])) by { assert name in Names(v); }
        ErrorsAreReal(Obj(reg[name]), reg, seen + [name], e);
        if e.Unresolved? {
          var r :| r in Names(Obj(reg[name])) && Reaches(RefGraph(reg), r, e.name);
          ReachesEdgeThen(RefGraph(reg), name, r, e.name);
        }
      }
    } else if v.Obj? {
      var k :| k in v.fields && e in Resolve(v.fields[k], reg, seen).errors;
      assert Names(v.fields[k]) <= Names(v);
      ErrorsAreReal(v.fields[k], reg, seen, e);
    } else if v.Arr? {
      var i :| 0 <= i < |v.items| && e in Resolve(v.items[i], reg, seen).errors;
      assert Names(v.items[i]) <= Names(v);
      ErrorsAreReal(v.items[i], reg, seen, e);
    }
  }

  // ---------------------------------------------------------------------------
  // The result

  /** Without errors, the result contains no reference. */
  lemma {:induction false} ResultIsRefFree(v: Json, reg: Registry, seen: seq<string>)
    requires Resolve(v, reg, seen).errors == {}
    ensures RefFree(Resolve(v, reg, seen).value)
    decreases Unseen(reg, seen), v
  {
    if IsRef(v) {
      var name := RefName(v);
      FewerUnseen(reg, seen, name);
      ResultIsRefFree(Obj(reg[name]), reg, seen + [name]);
    } else if v.Obj? {
      forall k | k in v.fields ensures RefFree(Resolve(v.fields[k], reg, seen).value) {
        assert Resolve(v.fields[k], reg, seen).errors <= Resolve(v, reg, seen).errors;
        ResultIsRefFree(v.fields[k], reg, seen);
      }
      ObjectStaysNoRef(v, reg, seen);
    } else if v.Arr? {
      forall i | 0 <= i < |v.items| ensures RefFree(Resolve(v.items[i], reg, seen).value) {
        assert Resolve(v.items[i], reg, seen).errors <= Resolve(v, reg, seen).errors;
        ResultIsRefFree(v.items[i], reg, seen);
      }
    }
  }

  /** Only a string resolves to a string: definitions are objects, and failures give null. */
  lemma {:induction false} StringsAreOriginal(v: Json, reg: Registry, seen: seq<string>)
    requires Resolve(v, reg, seen).value.Str?
    ensures v.Str?
    decreases Unseen(reg, seen), v
  {
    if IsRef(v) {
      var name := RefName(v);
      if name !in seen && name in reg {
        FewerUnseen(reg, seen, name);
        StringsAreOriginal(Obj(reg[name]), reg, seen + [name]);
      }
    }
  }

  /** An object that is not a reference does not become one. */
  lemma ObjectStaysNoRef(v: Json, reg: Registry, seen: seq<string>)
    requires !IsRef(v) && v.Obj?
    ensures !IsRef(Resolve(v, reg, seen).value)
  {
    if "$ref" in v.fields && Resolve(v.fields["$ref"], reg, seen).value.Str? {
      StringsAreOriginal(v.fields["$ref"], reg, seen);
    }
  }

  /** A value without references is returned unchanged, whatever the registry holds. */
  lemma {:induction false} RefFreeUnchanged(v: Json, reg: Registry, seen: seq<string>)
    requires RefFree(v)
    ensures Resolve(v, reg, seen) == Resolved(v, {})
    decreases v
  {
    if v.Obj? {
      forall k | k in v.fields ensures Resolve(v.fields[k], reg, seen) == Resolved(v.fields[k], {}) {
        RefFreeUnchanged(v.fields[k], reg, seen);
      }
    } else if v.Arr? {
      forall i | 0 <= i < |v.items| ensures Resolve(v.items[i], reg, seen) == Resolved(v.items[i], {}) {
        RefFreeUnchanged(v.items[i], reg, seen);
      }
    }
  }

  /** Without errors the result does not depend on the path by which a value was reached, so every
      occurrence of a name is replaced by the same value. */
  lemma {:induction false} PathIrrelevant(v: Json, reg: Registry, seen: seq<string>, seen': seq<string>)
    requires Resolve(v, reg, seen).errors == {} && Resolve(v, reg, seen').errors == {}
    ensures Resolve(v, reg, seen).value == Resolve(v, reg, seen').value
    decreases Unseen(reg, seen), v
  {
    if IsRef(v) {
      var name := RefName(v);
      FewerUnseen(reg, seen, name);
      PathIrrelevant(Obj(reg[name]), reg, seen + [name], seen' + [name]);
    } else if v.Obj? {
      forall k | k in v.fields ensures Resolve(v.fields[k], reg, seen).value == Resolve(v.fields[k], reg, seen').value {
        assert Resolve(v.fields[k], reg, seen).errors <= Resolve(v, reg, seen).errors;
        assert Resolve(v.fields[k], reg, seen').errors <= Resolve(v, reg, seen').errors;
        PathIrrelevant(v.fields[k], reg, seen, seen');
      }
    } else if v.Arr? {
      forall i | 0 <= i < |v.items| ensures Resolve(v.items[i], reg, seen).value == Resolve(v.items[i], reg, seen').value {
        assert Resolve(v.items[i], reg, seen).errors <= Resolve(v, reg, seen).errors;
        assert Resolve(v.items[i], reg, seen').errors <= Resolve(v, reg, seen').errors;
        PathIrrelevant(v.items[i], reg, seen, seen');
      }
    }
  }

  /** A reference resolves to what its definition resolves to at top level. */
  lemma ReferenceMeansDefinition(v: Json, reg: Registry, seen: seq<string>)
    requires IsRef(v) && Resolve(v, reg, seen).errors == {}
    ensures RefName(v) in reg
    ensures Resolve(Obj(reg[RefName(v)]), reg, []) == Resolved(Resolve(v, reg, seen).value, {})
  {
    var name := RefName(v);
    var body := Obj(reg[name]);
    ErrorsExactly(body, reg, seen + [name]);
    ErrorsExactly(body, reg, []);
    assert Resolvable(body, reg, []) by {
      forall r, x | r in Names(body) && Reaches(RefGraph(reg), r, x) ensures Sound(reg, [], x) {
        assert Sound(reg, seen + [name], x);
      }
    }
    PathIrrelevant(body, reg, seen + [name], []);
  }
}
