/** The expression-tolerant schema walker of internal/registry/configschema.go. Whether a config is
    accepted is modelled; the wording of the errors is not. */
module ConfigSchema {
  import opened JsonValues

  /** `strings.Contains(s, "{{")`. */
  predicate HasOpening(s: string) {
    exists i :: 0 <= i < |s| - 1 && s[i] == '{' && s[i+1] == '{'
  }

  predicate IsExpression(v: Json) {
    v.Str? && HasOpening(v.s)
  }

  predicate MatchesType(v: Json, t: string) {
    if t == "object" then v.Obj?
    else if t == "array" then v.Arr?
    else if t == "string" then v.Str?
    else if t == "boolean" then v.Bool?
    else if t == "null" then v.Null?
    else if t == "number" then v.Num?
    else if t == "integer" then v.Num? && v.n == v.n.Floor as real
    else false
  }

  /** A missing or malformed "type" allows everything. */
  predicate TypeAllows(schema: map<string, Json>, v: Json) {
    "type" in schema ==>
      match schema["type"]
      case Str(t) => MatchesType(v, t)
      case Arr(ts) => exists i :: 0 <= i < |ts| && ts[i].Str? && MatchesType(v, ts[i].s)
      case _ => true
  }

  predicate EnumAllows(schema: map<string, Json>, v: Json) {
    "enum" in schema && schema["enum"].Arr? ==> v in schema["enum"].items
  }

  predicate RequiredPresent(schema: map<string, Json>, fields: map<string, Json>) {
    "required" in schema && schema["required"].Arr? ==>
      forall i :: 0 <= i < |schema["required"].items| && schema["required"].items[i].Str? ==>
        schema["required"].items[i].s in fields
  }

  predicate HasProperties(schema: map<string, Json>) {
    "properties" in schema && schema["properties"].Obj?
  }

  predicate Declares(schema: map<string, Json>, name: string) {
    HasProperties(schema) && name in schema["properties"].fields && schema["properties"].fields[name].Obj?
  }

  /** Unknown fields are rejected on request, and by default at the config root. */
  predicate Strict(schema: map<string, Json>, root: bool) {
    if "additionalProperties" in schema && schema["additionalProperties"].Bool?
    then !schema["additionalProperties"].b
    else root && HasProperties(schema)
  }

  /** `validateValue` reports no error. `root` stands for the strict flag at the empty path. */
  predicate Accepts(schema: Json, v: Json, root: bool)
    requires schema.Obj?
    decreases schema
  {
    var s := schema.fields;
    if IsExpression(v) then true
    else if "oneOf" in s && s["oneOf"].Arr? then
      exists i :: 0 <= i < |s["oneOf"].items| && s["oneOf"].items[i].Obj? && Accepts(s["oneOf"].items[i], v, root)
    else
      && EnumAllows(s, v)
      && TypeAllows(s, v)
      && (v.Obj? ==>
            && RequiredPresent(s, v.fields)
            && forall name :: name in v.fields ==>
                 if Declares(s, name) then Accepts(s["properties"].fields[name], v.fields[name], false)
                 else !Strict(s, root))
      && (v.Arr? && "items" in s && s["items"].Obj? ==>
            forall i :: 0 <= i < |v.items| ==> Accepts(s["items"], v.items[i], false))
  }

  // ---------------------------------------------------------------------------
  // Specification

  /** `v'` is `v` with any set of values, at any depth, replaced by expression strings. */
  ghost predicate Templated(v: Json, v': Json) {
    || IsExpression(v')
    || (match v
        case Obj(fields) =>
          v'.Obj? && v'.fields.Keys == fields.Keys && forall k :: k in fields ==> Templated(fields[k], v'.fields[k])
        case Arr(items) =>
          v'.Arr? && |v'.items| == |items| && forall i :: 0 <= i < |items| ==> Templated(items[i], v'.items[i])
        case _ => v' == v)
  }

  /** An object or array with something in it. */
  predicate Composite(v: Json) {
    (v.Obj? && v.fields != map[]) || (v.Arr? && v.items != [])
  }

  /** No enumeration that the walker may consult lists a composite value. */
  ghost predicate PlainEnums(schema: Json)
    requires schema.Obj?
    decreases schema
  {
    var s := schema.fields;
    && ("enum" in s && s["enum"].Arr? ==> forall m :: m in s["enum"].items ==> !Composite(m))
    && ("oneOf" in s && s["oneOf"].Arr? ==>
          forall i :: 0 <= i < |s["oneOf"].items| && s["oneOf"].items[i].Obj? ==> PlainEnums(s["oneOf"].items[i]))
    && (HasProperties(s) ==> forall name :: name in s["properties"].fields && s["properties"].fields[name].Obj? ==>
          PlainEnums(s["properties"].fields[name]))
    && ("items" in s && s["items"].Obj? ==> PlainEnums(s["items"]))
  }

  ghost predicate Tolerant(schema: Json, root: bool)
    requires schema.Obj?
  {
    forall v, v' :: Accepts(schema, v, root) && Templated(v, v') ==> Accepts(schema, v', root)
  }

  // ---------------------------------------------------------------------------
  // Monotonicity

  /** Templating keeps the shape that "type" looks at, unless it gives an expression. */
  lemma TemplatedType(schema: map<string, Json>, v: Json, v': Json)
    requires Templated(v, v') && !IsExpression(v') && TypeAllows(schema, v)
    ensures TypeAllows(schema, v')
  {
    forall t | MatchesType(v, t) ensures MatchesType(v', t) {}
    if "type" in schema && schema["type"].Arr? {
      var ts := schema["type"].items;
      var i :| 0 <= i < |ts| && ts[i].Str? && MatchesType(v, ts[i].s);
      assert MatchesType(v', ts[i].s);
    }
  }

  /** Only composite values change without becoming an expression. */
  lemma TemplatedPlain(v: Json, v': Json)
    requires Templated(v, v') && !IsExpression(v') && !Composite(v)
    ensures v' == v
  {
    if v.Obj? { assert v'.fields == map[]; }
  }

  /** Replacing any set of nested values of an accepted config by expression strings leaves it
      accepted, through properties, items and alternatives. */
  lemma {:induction false} TemplatingAccepted(schema: Json, v: Json, v': Json, root: bool)
    requires schema.Obj? && PlainEnums(schema) && Accepts(schema, v, root) && Templated(v, v')
    ensures Accepts(schema, v', root)
    decreases schema
  {
    var s := schema.fields;
    if IsExpression(v') || IsExpression(v) {
    } else if "oneOf" in s && s["oneOf"].Arr? {
      var i :| 0 <= i < |s["oneOf"].items| && s["oneOf"].items[i].Obj? && Accepts(s["oneOf"].items[i], v, root);
      TemplatingAccepted(s["oneOf"].items[i], v, v', root);
    } else {
      TemplatedType(s, v, v');
      if "enum" in s && s["enum"].Arr? { TemplatedPlain(v, v'); }
      if v.Obj? {
        forall name | name in v'.fields
          ensures if Declares(s, name) then Accepts(s["properties"].fields[name], v'.fields[name], false) else !Strict(s, root)
        {
          if Declares(s, name) {
            TemplatingAccepted(s["properties"].fields[name], v.fields[name], v'.fields[name], false);
          }
        }
      }
      if v.Arr? && "items" in s && s["items"].Obj? {
        forall i | 0 <= i < |v'.items| ensures Accepts(s["items"], v'.items[i], false) {
          TemplatingAccepted(s["items"], v.items[i], v'.items[i], false);
        }
      }
    }
  }

  // ---------------------------------------------------------------------------
  // Composite enumeration members are exactly what breaks it

  function EnumOnly(members: seq<Json>): Json {
    Obj(map["enum" := Arr(members)])
  }

  /** Strings longer than any string among the values. */
  function LongerThanAll(values: seq<Json>): (n: nat)
    ensures forall v :: v in values && v.Str? ==> |v.s| < n
  {
    if values == [] then 1
    else
      var rest := LongerThanAll(values[1..]);
      if values[0].Str? && |values[0].s| >= rest then |values[0].s| + 1 else rest
  }

  /** An expression string that is not among the values. */
  lemma FreshExpression(values: seq<Json>) returns (e: Json)
    ensures IsExpression(e) && e !in values
  {
    var n := LongerThanAll(values);
    var padding := seq(n, _ => 'x');
    e := Str("{{" + padding);
    assert e.s[0] == '{' && e.s[1] == '{' && HasOpening(e.s);
  }

  function FieldsAt(values: seq<Json>, k: string): seq<Json> {
    if values == [] then []
    else (if values[0].Obj? && k in values[0].fields then [values[0].fields[k]] else []) + FieldsAt(values[1..], k)
  }

  lemma {:induction false} FieldListed(values: seq<Json>, k: string, v: Json)
    requires v in values && v.Obj? && k in v.fields
    ensures v.fields[k] in FieldsAt(values, k)
  {
    if values[0] != v { FieldListed(values[1..], k, v); }
  }

  function ItemsAt(values: seq<Json>): seq<Json> {
    if values == [] then []
    else (if values[0].Arr? && values[0].items != [] then [values[0].items[0]] else []) + ItemsAt(values[1..])
  }

  lemma {:induction false} ItemListed(values: seq<Json>, v: Json)
    requires v in values && v.Arr? && v.items != []
    ensures v.items[0] in ItemsAt(values)
  {
    if values[0] != v { ItemListed(values[1..], v); }
  }

  lemma {:induction false} TemplatedSelf(v: Json)
    ensures Templated(v, v)
  {
    if v.Obj? {
      forall k | k in v.fields ensures Templated(v.fields[k], v.fields[k]) { TemplatedSelf(v.fields[k]); }
    } else if v.Arr? {
      forall i | 0 <= i < |v.items| ensures Templated(v.items[i], v.items[i]) { TemplatedSelf(v.items[i]); }
    }
  }

  /** A composite member has a templated form outside the list. */
  lemma CompositeEscapes(members: seq<Json>, m: Json) returns (v': Json)
    requires m in members && Composite(m)
    ensures Templated(m, v') && !IsExpression(v') && v' !in members
  {
    if m.Obj? {
      var k :| k in m.fields;
      var e := FreshExpression(FieldsAt(members, k));
      v' := Obj(m.fields[k := e]);
      forall x | x in m.fields ensures Templated(m.fields[x], v'.fields[x]) { TemplatedSelf(m.fields[x]); }
      if v' in members { FieldListed(members, k, v'); }
    } else {
      var e := FreshExpression(ItemsAt(members));
      v' := Arr(m.items[0 := e]);
      forall i | 0 <= i < |m.items| ensures Templated(m.items[i], v'.items[i]) { TemplatedSelf(m.items[i]); }
      if v' in members { ItemListed(members, v'); }
    }
  }

  /** An enumeration tolerates expressions inside its members if and only if none is composite. */
  lemma EnumTolerantIff(members: seq<Json>, root: bool)
    ensures Tolerant(EnumOnly(members), root) <==> forall m :: m in members ==> !Composite(m)
  {
    var schema := EnumOnly(members);
    if forall m :: m in members ==> !Composite(m) {
      forall v, v' | Accepts(schema, v, root) && Templated(v, v') ensures Accepts(schema, v', root) {
        TemplatingAccepted(schema, v, v', root);
      }
    }
    if m :| m in members && Composite(m) {
      var v' := CompositeEscapes(members, m);
      assert Accepts(schema, m, root) && !Accepts(schema, v', root);
    }
  }
}
