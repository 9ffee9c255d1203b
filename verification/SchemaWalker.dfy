/** `validateValue` of internal/registry/configschema.go as the recursive walk that collects errors,
    and what every error means. */
module SchemaWalker {
  import opened JsonValues
  import opened ConfigSchema

  // ---------------------------------------------------------------------------
  // Types

  /** The name that error messages give to the type of a value. */
  function TypeName(v: Json): string {
    match v
    case Null => "null"
    case Obj(_) => "object"
    case Arr(_) => "array"
    case Str(_) => "string"
    case Bool(_) => "boolean"
    case Num(_) => "number"
  }

  ghost predicate IsInt(v: Json, k: int) {
    v == Num(k as real)
  }

  ghost predicate HasType(v: Json, t: string) {
    t == TypeName(v) || (t == "integer" && exists k :: IsInt(v, k))
  }

  /** A value matches the type that it is said to have, whole numbers match "integer" too, and nothing
      matches any other name. */
  lemma MatchesTypeMeans(v: Json, t: string)
    ensures MatchesType(v, t) <==> HasType(v, t)
  {
    if v.Num? && v.n == v.n.Floor as real { assert IsInt(v, v.n.Floor); }
    if k :| IsInt(v, k) { assert v.n.Floor == k; }
  }

  // ---------------------------------------------------------------------------
  // What can be wrong with a value

  datatype Step = Field(name: string) | Item(index: nat)

  datatype Fault =
    | NoVariant                  // no alternative of oneOf accepts the value
    | NotListed                  // not among the enumerated values
    | WrongType(got: string)
    | Missing(name: string)
    | Unknown(name: string)

  datatype Report = Report(path: seq<Step>, fault: Fault)

  predicate HasVariants(s: map<string, Json>) {
    "oneOf" in s && s["oneOf"].Arr?
  }

  ghost predicate Listed(s: map<string, Json>, v: Json) {
    "enum" in s && s["enum"].Arr? ==> exists i :: 0 <= i < |s["enum"].items| && s["enum"].items[i] == v
  }

  /** No "type", or a "type" that is neither a string nor an array, allows everything. */
  ghost predicate Typed(s: map<string, Json>, v: Json) {
    && ("type" in s && s["type"].Str? ==> HasType(v, s["type"].s))
    && ("type" in s && s["type"].Arr? ==>
          exists i :: 0 <= i < |s["type"].items| && s["type"].items[i].Str? && HasType(v, s["type"].items[i].s))
  }

  ghost predicate Requires(s: map<string, Json>, name: string) {
    "required" in s && s["required"].Arr? && Str(name) in s["required"].items
  }

  /** Unknown fields are errors if the schema says so, and at the root of the config if the schema
      declares properties and does not say. */
  ghost predicate Forbids(s: map<string, Json>, root: bool) {
    || ("additionalProperties" in s && s["additionalProperties"] == Bool(false))
    || (root && "properties" in s && s["properties"].Obj?
        && ("additionalProperties" in s ==> !s["additionalProperties"].Bool?))
  }

  /** The schema itself, not one of its parts, objects to the value. */
  ghost predicate Violates(s: map<string, Json>, v: Json, root: bool, fault: Fault) {
    if HasVariants(s) then
      && fault == NoVariant
      && forall i :: 0 <= i < |s["oneOf"].items| && s["oneOf"].items[i].Obj? ==> !Accepts(s["oneOf"].items[i], v, root)
    else match fault
      case NoVariant => false
      case NotListed => !Listed(s, v)
      case WrongType(got) => Listed(s, v) && !Typed(s, v) && got == TypeName(v)
      case Missing(name) => Listed(s, v) && Typed(s, v) && v.Obj? && Requires(s, name) && name !in v.fields
      case Unknown(name) =>
        Listed(s, v) && Typed(s, v) && v.Obj? && name in v.fields && !Declares(s, name) && Forbids(s, root)
  }

  /** Following `path` from position `at` on leads to a part of the value to which its schema objects.
      Nothing is looked at below expressions, alternatives, or values of a wrong type. */
  ghost predicate Faulty(schema: Json, v: Json, root: bool, path: seq<Step>, at: nat, fault: Fault)
    requires at <= |path|
    decreases |path| - at
  {
    && schema.Obj? && !IsExpression(v)
    && if at == |path| then Violates(schema.fields, v, root, fault)
       else
         var s := schema.fields;
         && !HasVariants(s) && Listed(s, v) && Typed(s, v)
         && match path[at]
            case Field(name) =>
              && v.Obj? && name in v.fields && Declares(s, name)
              && Faulty(s["properties"].fields[name], v.fields[name], false, path, at + 1, fault)
            case Item(i) =>
              && v.Arr? && i < |v.items| && "items" in s && s["items"].Obj?
              && Faulty(s["items"], v.items[i], false, path, at + 1, fault)
  }

  /** A fault of the value, which itself is found at `path`. */
  ghost predicate FaultBelow(schema: Json, v: Json, root: bool, path: seq<Step>, r: Report) {
    path <= r.path && Faulty(schema, v, root, r.path, |path|, r.fault)
  }

  /** Exactly the faults are reported. */
  ghost predicate ReportsFaults(errs: seq<Report>, schema: Json, v: Json, root: bool, path: seq<Step>) {
    forall r :: r in errs <==> FaultBelow(schema, v, root, path, r)
  }

  /** Unknown fields are looked for at the root of the config. */
  predicate AtRoot(rootStrict: bool, path: seq<Step>) {
    rootStrict && path == []
  }

  // ---------------------------------------------------------------------------
  // What is accepted has no fault

  lemma AllowsMeans(s: map<string, Json>, v: Json)
    ensures EnumAllows(s, v) <==> Listed(s, v)
    ensures TypeAllows(s, v) <==> Typed(s, v)
  {
    forall t ensures MatchesType(v, t) <==> HasType(v, t) { MatchesTypeMeans(v, t); }
    if "type" in s && s["type"].Arr? {
      var ts := s["type"].items;
      if i :| 0 <= i < |ts| && ts[i].Str? && MatchesType(v, ts[i].s) { assert HasType(v, ts[i].s); }
      if i :| 0 <= i < |ts| && ts[i].Str? && HasType(v, ts[i].s) { assert MatchesType(v, ts[i].s); }
    }
  }

  lemma RequiredMeans(s: map<string, Json>, fields: map<string, Json>)
    ensures RequiredPresent(s, fields) <==> forall name :: Requires(s, name) ==> name in fields
  {
    if RequiredPresent(s, fields) {
      forall name | Requires(s, name) ensures name in fields {
        var i :| 0 <= i < |s["required"].items| && s["required"].items[i] == Str(name);
      }
    }
    if (forall name :: Requires(s, name) ==> name in fields) && "required" in s && s["required"].Arr? {
      forall i | 0 <= i < |s["required"].items| && s["required"].items[i].Str? ensures s["required"].items[i].s in fields {
        assert Requires(s, s["required"].items[i].s);
      }
    }
  }

  lemma {:induction false} FaultRejects(schema: Json, v: Json, root: bool, path: seq<Step>, at: nat, fault: Fault)
    requires at <= |path| && Faulty(schema, v, root, path, at, fault)
    ensures !Accepts(schema, v, root)
    decreases |path| - at
  {
    var s := schema.fields;
    AllowsMeans(s, v);
    if v.Obj? { RequiredMeans(s, v.fields); }
    if at < |path| {
      match path[at]
      case Field(name) => FaultRejects(s["properties"].fields[name], v.fields[name], false, path, at + 1, fault);
      case Item(i) => FaultRejects(s["items"], v.items[i], false, path, at + 1, fault);
    }
  }

  /** A rejected value has a fault. */
  lemma {:induction false} RejectedHasFault(schema: Json, v: Json, root: bool, path: seq<Step>) returns (p: seq<Step>, fault: Fault)
    requires schema.Obj? && !Accepts(schema, v, root)
    ensures path <= p && Faulty(schema, v, root, p, |path|, fault)
    decreases schema
  {
    var s := schema.fields;
    AllowsMeans(s, v);
    p := path;
    if HasVariants(s) { fault := NoVariant; }
    else if !Listed(s, v) { fault := NotListed; }
    else if !Typed(s, v) { fault := WrongType(TypeName(v)); }
    else if v.Obj? { p, fault := RejectedObject(schema, v, root, path); }
    else {
      var i :| 0 <= i < |v.items| && !Accepts(s["items"], v.items[i], false);
      p, fault := RejectedHasFault(s["items"], v.items[i], false, path + [Item(i)]);
      assert p[|path|] == Item(i);
    }
  }

  lemma {:induction false} RejectedObject(schema: Json, v: Json, root: bool, path: seq<Step>) returns (p: seq<Step>, fault: Fault)
    requires schema.Obj? && !Accepts(schema, v, root) && v.Obj?
    requires !HasVariants(schema.fields) && Listed(schema.fields, v) && Typed(schema.fields, v)
    ensures path <= p && Faulty(schema, v, root, p, |path|, fault)
    decreases schema, 0
  {
    var s := schema.fields;
    AllowsMeans(s, v);
    RequiredMeans(s, v.fields);
    p := path;
    if name :| Requires(s, name) && name !in v.fields { fault := Missing(name); }
    else {
      var name :| name in v.fields &&
        !(if Declares(s, name) then Accepts(s["properties"].fields[name], v.fields[name], false) else !Strict(s, root));
      if Declares(s, name) {
        p, fault := RejectedHasFault(s["properties"].fields[name], v.fields[name], false, path + [Field(name)]);
        assert p[|path|] == Field(name);
      } else {
        fault := Unknown(name);
      }
    }
  }

  /** A value is accepted if and only if no part of it, however deep, has a fault. */
  lemma AcceptsIff(schema: Json, v: Json, root: bool, path: seq<Step>)
    requires schema.Obj?
    ensures Accepts(schema, v, root) <==> forall r :: !FaultBelow(schema, v, root, path, r)
  {
    if Accepts(schema, v, root) {
      forall r ensures !FaultBelow(schema, v, root, path, r) {
        if FaultBelow(schema, v, root, path, r) { FaultRejects(schema, v, root, r.path, |path|, r.fault); }
      }
    } else {
      var p, fault := RejectedHasFault(schema, v, root, path);
      assert FaultBelow(schema, v, root, path, Report(p, fault));
    }
  }

  lemma SilentIff(errs: seq<Report>, schema: Json, v: Json, root: bool, path: seq<Step>)
    requires schema.Obj? && ReportsFaults(errs, schema, v, root, path)
    ensures errs == [] <==> Accepts(schema, v, root)
  {
    AcceptsIff(schema, v, root, path);
    if errs != [] { assert errs[0] in errs; }
  }

  // ---------------------------------------------------------------------------
  // The walk

  /** What is wrong with the field `name`. */
  ghost predicate FieldFault(schema: Json, v: Json, root: bool, path: seq<Step>, name: string, r: Report) {
    && schema.Obj? && v.Obj? && name in v.fields
    && if Declares(schema.fields, name) then
         && path + [Field(name)] <= r.path
         && Faulty(schema.fields["properties"].fields[name], v.fields[name], false, r.path, |path| + 1, r.fault)
       else r == Report(path, Unknown(name)) && Strict(schema.fields, root)
  }

  /** What is wrong with the item `i`. */
  ghost predicate ItemFault(schema: Json, v: Json, path: seq<Step>, i: nat, r: Report) {
    && schema.Obj? && "items" in schema.fields && v.Arr? && i < |v.items|
    && path + [Item(i)] <= r.path && Faulty(schema.fields["items"], v.items[i], false, r.path, |path| + 1, r.fault)
  }

  lemma ObjectFaults(schema: Json, v: Json, root: bool, path: seq<Step>, r: Report)
    requires schema.Obj? && v.Obj? && !HasVariants(schema.fields) && Listed(schema.fields, v) && Typed(schema.fields, v)
    ensures FaultBelow(schema, v, root, path, r) <==>
      || (r.path == path && r.fault.Missing? && Requires(schema.fields, r.fault.name) && r.fault.name !in v.fields)
      || exists name :: FieldFault(schema, v, root, path, name, r)
  {
    if path <= r.path && |r.path| > |path| && r.path[|path|].Field? {
      var name := r.path[|path|].name;
      assert r.path[..|path|+1] == path + [Field(name)];
      if Faulty(schema, v, root, r.path, |path|, r.fault) { assert FieldFault(schema, v, root, path, name, r); }
    }
    if r.path == path && r.fault.Unknown? && Faulty(schema, v, root, r.path, |path|, r.fault) {
      assert FieldFault(schema, v, root, path, r.fault.name, r);
    }
    if name :| FieldFault(schema, v, root, path, name, r) {
      if Declares(schema.fields, name) { assert r.path[|path|] == Field(name); }
    }
  }

  lemma ArrayFaults(schema: Json, v: Json, root: bool, path: seq<Step>, r: Report)
    requires schema.Obj? && v.Arr? && !HasVariants(schema.fields) && Listed(schema.fields, v) && Typed(schema.fields, v)
    requires !IsExpression(v)
    ensures FaultBelow(schema, v, root, path, r) <==>
      exists i: nat :: ItemFault(schema, v, path, i, r) && schema.fields["items"].Obj?
  {
    if path <= r.path && |r.path| > |path| && r.path[|path|].Item? {
      var i := r.path[|path|].index;
      assert r.path[..|path|+1] == path + [Item(i)];
      if Faulty(schema, v, root, r.path, |path|, r.fault) { assert ItemFault(schema, v, path, i, r); }
    }
    if i: nat :| ItemFault(schema, v, path, i, r) { assert r.path[|path|] == Item(i); }
  }

  /** A value that the schema itself objects to has no other fault. */
  lemma OwnFault(schema: Json, v: Json, root: bool, path: seq<Step>, fault: Fault)
    requires schema.Obj? && !IsExpression(v) && Violates(schema.fields, v, root, fault)
    requires HasVariants(schema.fields) || fault == NotListed || fault.WrongType?
    ensures ReportsFaults([Report(path, fault)], schema, v, root, path)
  {
    forall r ensures r in [Report(path, fault)] <==> FaultBelow(schema, v, root, path, r) {
      if FaultBelow(schema, v, root, path, r) { assert r == Report(path, fault); }
    }
  }

  lemma NoFault(schema: Json, v: Json, root: bool, path: seq<Step>)
    requires schema.Obj? && Accepts(schema, v, root)
    ensures ReportsFaults([], schema, v, root, path)
  {
    AcceptsIff(schema, v, root, path);
  }

  /** Reports exactly the faults, and so nothing if and only if the value is accepted. */
  method ValidateValue(schema: Json, v: Json, path: seq<Step>, rootStrict: bool) returns (errs: seq<Report>)
    requires schema.Obj?
    ensures ReportsFaults(errs, schema, v, AtRoot(rootStrict, path), path)
    ensures errs == [] <==> Accepts(schema, v, AtRoot(rootStrict, path))
    decreases schema, 2
  {
    var s := schema.fields;
    ghost var root := AtRoot(rootStrict, path);
    if IsExpression(v) { return []; }
    if HasVariants(s) {
      var matched := MatchesVariant(schema, v, path, rootStrict);
      if matched { NoFault(schema, v, root, path); return []; }
      OwnFault(schema, v, root, path, NoVariant);
      return [Report(path, NoVariant)];
    }
    AllowsMeans(s, v);
    if !EnumAllows(s, v) {
      errs := [Report(path, NotListed)];
      OwnFault(schema, v, root, path, NotListed);
    } else if !TypeAllows(s, v) {
      errs := [Report(path, WrongType(TypeName(v)))];
      OwnFault(schema, v, root, path, WrongType(TypeName(v)));
    } else {
      errs := ValidateParts(schema, v, path, rootStrict);
    }
    SilentIff(errs, schema, v, root, path);
  }

  method ValidateParts(schema: Json, v: Json, path: seq<Step>, rootStrict: bool) returns (errs: seq<Report>)
    requires schema.Obj? && !HasVariants(schema.fields) && Listed(schema.fields, v) && Typed(schema.fields, v)
    requires !IsExpression(v)
    ensures ReportsFaults(errs, schema, v, AtRoot(rootStrict, path), path)
    decreases schema, 1
  {
    ghost var root := AtRoot(rootStrict, path);
    errs := [];
    if v.Obj? {
      var missing := CheckRequired(schema.fields, v.fields, path);
      var wrong := CheckFields(schema, v, path, rootStrict);
      errs := missing + wrong;
      forall r ensures r in errs <==> FaultBelow(schema, v, root, path, r) {
        ObjectFaults(schema, v, root, path, r);
      }
    } else if v.Arr? {
      if "items" in schema.fields && schema.fields["items"].Obj? { errs := CheckItems(schema, v, path); }
      forall r ensures r in errs <==> FaultBelow(schema, v, root, path, r) {
        ArrayFaults(schema, v, root, path, r);
      }
    }
  }

  /** The loop over the alternatives: the first that accepts ends it. */
  method MatchesVariant(schema: Json, v: Json, path: seq<Step>, rootStrict: bool) returns (matched: bool)
    requires schema.Obj? && HasVariants(schema.fields)
    ensures matched <==> exists i :: 0 <= i < |schema.fields["oneOf"].items| && schema.fields["oneOf"].items[i].Obj?
                                     && Accepts(schema.fields["oneOf"].items[i], v, AtRoot(rootStrict, path))
    decreases schema, 0
  {
    var branches := schema.fields["oneOf"].items;
    for i := 0 to |branches|
      invariant forall k :: 0 <= k < i && branches[k].Obj? ==> !Accepts(branches[k], v, AtRoot(rootStrict, path))
    {
      if branches[i].Obj? {
        var branchErrs := ValidateValue(branches[i], v, path, rootStrict);
        if branchErrs == [] { return true; }
      }
    }
    matched := false;
  }

  method CheckRequired(s: map<string, Json>, fields: map<string, Json>, path: seq<Step>) returns (errs: seq<Report>)
    ensures forall r :: r in errs <==>
      r.path == path && r.fault.Missing? && Requires(s, r.fault.name) && r.fault.name !in fields
  {
    errs := [];
    if "required" in s && s["required"].Arr? {
      var names := s["required"].items;
      for i := 0 to |names|
        invariant forall r :: r in errs <==>
          r.path == path && r.fault.Missing? && Str(r.fault.name) in names[..i] && r.fault.name !in fields
      {
        assert names[..i+1] == names[..i] + [names[i]];
        if names[i].Str? && names[i].s !in fields { errs := errs + [Report(path, Missing(names[i].s))]; }
      }
      assert names[..|names|] == names;
    }
  }

  method CheckFields(schema: Json, v: Json, path: seq<Step>, rootStrict: bool) returns (errs: seq<Report>)
    requires schema.Obj? && v.Obj?
    ensures forall r :: r in errs <==> exists name :: FieldFault(schema, v, AtRoot(rootStrict, path), path, name, r)
    decreases schema, 0
  {
    var s := schema.fields;
    ghost var root := AtRoot(rootStrict, path);
    errs := [];
    var todo := v.fields.Keys;
    while todo != {}
      invariant todo <= v.fields.Keys
      invariant forall r :: r in errs <==>
        exists name :: name in v.fields.Keys - todo && FieldFault(schema, v, root, path, name, r)
      decreases todo
    {
      var name :| name in todo;
      var found: seq<Report> := [];
      if Declares(s, name) {
        found := ValidateValue(s["properties"].fields[name], v.fields[name], path + [Field(name)], false);
      } else if Strict(s, AtRoot(rootStrict, path)) {
        found := [Report(path, Unknown(name))];
      }
      assert forall r :: r in found <==> FieldFault(schema, v, root, path, name, r);
      errs := errs + found;
      todo := todo - {name};
    }
  }

  method CheckItems(schema: Json, v: Json, path: seq<Step>) returns (errs: seq<Report>)
    requires schema.Obj? && v.Arr? && "items" in schema.fields && schema.fields["items"].Obj?
    ensures forall r :: r in errs <==> exists i: nat :: ItemFault(schema, v, path, i, r)
    decreases schema, 0
  {
    errs := [];
    for k := 0 to |v.items|
      invariant forall r :: r in errs <==> exists i: nat :: i < k && ItemFault(schema, v, path, i, r)
    {
      var found := ValidateValue(schema.fields["items"], v.items[k], path + [Item(k)], false);
      assert forall r :: r in found <==> ItemFault(schema, v, path, k, r);
      errs := errs + found;
    }
  }
}
