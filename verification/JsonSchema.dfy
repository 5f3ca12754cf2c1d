/** toJSONSchema (asyncapi/asyncapi.go): OpenAPI 3.0 nullability rewritten as JSON Schema, with a
    validity semantics for each dialect and the proof that the rewrite keeps it. */
module JsonSchemaTranslation {
  import opened JsonTrees
  import opened Options
  import opened Hash
  import opened HashHoisting
  import opened DeriverLaws
  import opened SchemaDeriver

  // ---------------------------------------------------------------- the translation

  const NULL_SCHEMA := Obj(map["type" := Str("null")])

  /** toJSONSchema's edits on its own copy. */
  function MoveNullable(out: map<string, Json>): map<string, Json> {
    if !("nullable" in out && out["nullable"] == Bool(true)) then out
    else
      var bare := out - {"nullable"};
      if "allOf" in bare && bare["allOf"].Arr? && |bare["allOf"].items| == 1 then
        (bare - {"allOf", "type"})["anyOf" := Arr([bare["allOf"].items[0], NULL_SCHEMA])]
      else if "type" in bare && bare["type"].Str? then
        bare["type" := Arr([bare["type"], Str("null")])]
      else bare
  }

  /** copyValue: every object met on the way down is taken for a schema, properties maps included. */
  function Translate(v: Json): Json {
    match v
    case Obj(m) => Obj(MoveNullable(map k | k in m :: Translate(m[k])))
    case Arr(items) => Arr(seq(|items|, i requires 0 <= i < |items| => Translate(items[i])))
    case _ => v
  }

  /** toJSONSchema's loop over a schema's members, in any order. */
  method ToJSONSchema(schema: map<string, Json>) returns (out: map<string, Json>)
    ensures Obj(out) == Translate(Obj(schema))
    decreases Obj(schema), 0
  {
    out := map[];
    var todo := schema.Keys;
    while todo != {}
      invariant todo <= schema.Keys
      invariant out == map k | k in schema && k !in todo :: Translate(schema[k])
    {
      var k :| k in todo;
      todo := todo - {k};
      var copied := CopyValue(schema[k]);
      out := out[k := copied];
    }
    assert out == map k | k in schema :: Translate(schema[k]);
    if !("nullable" in out && out["nullable"] == Bool(true)) {
      return;
    }
    out := out - {"nullable"};
    if "allOf" in out && out["allOf"].Arr? && |out["allOf"].items| == 1 {
      var inner := out["allOf"].items[0];
      out := out - {"allOf", "type"};
      out := out["anyOf" := Arr([inner, NULL_SCHEMA])];
      return;
    }
    if "type" in out && out["type"].Str? {
      out := out["type" := Arr([out["type"], Str("null")])];
    }
  }

  method CopyValue(v: Json) returns (out: Json)
    ensures out == Translate(v)
    decreases v, 1
  {
    match v {
      case Obj(m) =>
        var copied := ToJSONSchema(m);
        out := Obj(copied);
      case Arr(items) =>
        var copied: seq<Json> := [];
        var i := 0;
        while i < |items|
          invariant 0 <= i <= |items| && |copied| == i
          invariant forall j | 0 <= j < i :: copied[j] == Translate(items[j])
        {
          var item := CopyValue(items[i]);
          copied := copied + [item];
          i := i + 1;
        }
        out := Arr(copied);
      case _ => out := v;
    }
  }

  function TranslateComponents(components: Components): Components {
    map n | n in components :: Translate(components[n])
  }

  // ---------------------------------------------------------------- validity

  /** What both dialects leave open: which number literals are integers, and what a reference that is
      followed too often, or leads nowhere, says. */
  datatype Reading = Reading(integral: string -> bool, unresolved: bool)

  predicate HasType(x: Json, t: string, reading: Reading) {
    match x
    case Null => t == "null"
    case Bool(_) => t == "boolean"
    case Num(lit) => t == "number" || (t == "integer" && reading.integral(lit))
    case Str(_) => t == "string"
    case Arr(_) => t == "array"
    case Obj(_) => t == "object"
  }

  predicate IsWrapper(m: map<string, Json>) {
    && "nullable" in m && m["nullable"] == Bool(true)
    && "allOf" in m && m["allOf"].Arr? && |m["allOf"].items| == 1
  }

  /** Validity under an OpenAPI 3.0 schema (section 4.7.24 of OpenAPI 3.0.3), following at most n
      references along any path into the value; the nullable wrapper reads as "null or X". */
  ghost predicate ValidOpenApi(n: nat, s: Json, x: Json, components: Components, reading: Reading)
    decreases n, s
  {
    if !s.Obj? then true
    else if IsRef(s) then
      var target := RefTarget(s.members["$ref"]);
      if n == 0 || target.None? || target.value !in components then reading.unresolved
      else ValidOpenApi(n - 1, components[target.value], x, components, reading)
    else if IsWrapper(s.members) then x.Null? || ValidOpenApi(n, s.members["allOf"].items[0], x, components, reading)
    else
      var m := s.members;
      && ("type" in m && m["type"].Str? ==>
            HasType(x, m["type"].s, reading) || ("nullable" in m && m["nullable"] == Bool(true) && x.Null?))
      && ("items" in m && x.Arr? ==>
            forall i | 0 <= i < |x.items| :: ValidOpenApi(n, m["items"], x.items[i], components, reading))
      && ("properties" in m && m["properties"].Obj? && x.Obj? ==>
            forall p | p in m["properties"].members && p in x.members ::
              ValidOpenApi(n, m["properties"].members[p], x.members[p], components, reading))
      && ("additionalProperties" in m && x.Obj? ==>
            forall p | p in x.members && p !in MemberObject(m, "properties") ::
              ValidOpenApi(n, m["additionalProperties"], x.members[p], components, reading))
      && ("required" in m && m["required"].Arr? && x.Obj? ==>
            forall r | r in m["required"].items && r.Str? :: r.s in x.members)
      && ("allOf" in m && m["allOf"].Arr? ==>
            forall i | 0 <= i < |m["allOf"].items| ::
              ValidOpenApi(n, m["allOf"].items[i], x, components, reading))
  }

  /** A type keyword admits a value: one type, or a list of them (section 6.1.1 of JSON Schema
      Validation, draft-07). */
  predicate TypeAdmits(t: Json, x: Json, reading: Reading) {
    match t
    case Str(name) => HasType(x, name, reading)
    case Arr(names) => exists i | 0 <= i < |names| :: names[i].Str? && HasType(x, names[i].s, reading)
    case _ => true
  }

  /** Validity under a JSON Schema, following at most n references along any path into the value. */
  ghost predicate ValidJsonSchema(n: nat, s: Json, x: Json, components: Components, reading: Reading)
    decreases n, s
  {
    if !s.Obj? then true
    else if IsRef(s) then
      var target := RefTarget(s.members["$ref"]);
      if n == 0 || target.None? || target.value !in components then reading.unresolved
      else ValidJsonSchema(n - 1, components[target.value], x, components, reading)
    else
      var m := s.members;
      && ("type" in m ==> TypeAdmits(m["type"], x, reading))
      && ("items" in m && x.Arr? ==>
            forall i | 0 <= i < |x.items| :: ValidJsonSchema(n, m["items"], x.items[i], components, reading))
      && ("properties" in m && m["properties"].Obj? && x.Obj? ==>
            forall p | p in m["properties"].members && p in x.members ::
              ValidJsonSchema(n, m["properties"].members[p], x.members[p], components, reading))
      && ("additionalProperties" in m && x.Obj? ==>
            forall p | p in x.members && p !in MemberObject(m, "properties") ::
              ValidJsonSchema(n, m["additionalProperties"], x.members[p], components, reading))
      && ("required" in m && m["required"].Arr? && x.Obj? ==>
            forall r | r in m["required"].items && r.Str? :: r.s in x.members)
      && ("allOf" in m && m["allOf"].Arr? ==>
            forall i | 0 <= i < |m["allOf"].items| ::
              ValidJsonSchema(n, m["allOf"].items[i], x, components, reading))
      && ("anyOf" in m && m["anyOf"].Arr? ==>
            exists i | 0 <= i < |m["anyOf"].items| ::
              ValidJsonSchema(n, m["anyOf"].items[i], x, components, reading))
  }

  // ---------------------------------------------------------------- the walk never misfires

  /** Walking a properties map as if it were a schema leaves it a properties map exactly when no
      property named "nullable" has the schema true. */
  lemma PropertiesWalkedAsSchema(ps: map<string, Json>)
    ensures Translate(Obj(ps)) == Obj(map p | p in ps :: Translate(ps[p]))
      <==> !("nullable" in ps && ps["nullable"] == Bool(true))
  {
    var copied := map p | p in ps :: Translate(ps[p]);
    if "nullable" in ps && ps["nullable"] == Bool(true) {
      assert copied["nullable"] == Bool(true);
      assert "nullable" !in MoveNullable(copied);
    } else if "nullable" in ps {
      TranslateBool(ps["nullable"]);
    }
  }

  lemma TranslateBool(v: Json)
    ensures Translate(v) == Bool(true) <==> v == Bool(true)
  {
  }

  /** In an emitted schema it never does: a property's schema is an object. */
  lemma PropertiesTranslated(ps: map<string, Json>)
    requires forall p | p in ps :: Emitted(ps[p])
    ensures Translate(Obj(ps)) == Obj(map p | p in ps :: Translate(ps[p]))
  {
    PropertiesWalkedAsSchema(ps);
  }

  // ---------------------------------------------------------------- the three shapes

  lemma RefTranslated(name: string)
    ensures Translate(RefTo(name)) == RefTo(name)
  {
    var m := RefTo(name).members;
    assert (map k | k in m :: Translate(m[k])) == m;
  }

  lemma OneItem(inner: Json)
    ensures Translate(Arr([inner])) == Arr([Translate(inner)])
  {
  }

  /** The members of a three-member object, copied; the keys as variables. */
  lemma ThreeTranslated(x: string, vx: Json, y: string, vy: Json, z: string, vz: Json)
    requires x != y && y != z && x != z
    ensures Translate(Obj(map[x := vx, y := vy, z := vz]))
      == Obj(MoveNullable(map[x := Translate(vx), y := Translate(vy), z := Translate(vz)]))
  {
    var m := map[x := vx, y := vy, z := vz];
    var copied := TranslateUnfolds(m);
    hide Translate, MoveNullable;
    assert copied == map[x := Translate(vx), y := Translate(vy), z := Translate(vz)];
  }

  /** An object is copied member by member, then its nullability is moved. */
  lemma TranslateUnfolds(m: map<string, Json>) returns (copied: map<string, Json>)
    ensures copied.Keys == m.Keys && forall k | k in m :: copied[k] == Translate(m[k])
    ensures Translate(Obj(m)) == Obj(MoveNullable(copied))
  {
    copied := map k | k in m :: Translate(m[k]);
  }

  lemma WrapperTranslated(inner: Json)
    ensures Translate(Wrapper(inner)) == Obj(map["anyOf" := Arr([Translate(inner), NULL_SCHEMA])])
  {
    OneItem(inner);
    assert Translate(Str("object")) == Str("object") && Translate(Bool(true)) == Bool(true);
    var t := Translate(inner);
    hide Translate;
    ThreeTranslated("type", Str("object"), "nullable", Bool(true), "allOf", Arr([inner]));
    var copied := map["type" := Str("object"), "nullable" := Bool(true), "allOf" := Arr([t])];
    var bare := copied - {"nullable"};
    assert bare - {"allOf", "type"} == map[];
  }

  /** An emitted schema that is neither a reference nor a wrapper. */
  ghost predicate IsPlain(s: Json) {
    Emitted(s) && !IsRef(s) && "allOf" !in s.members
  }

  const KEPT_KEYS := {"items", "additionalProperties", "properties", "required"}

  lemma PlainTranslated(s: Json)
    requires IsPlain(s)
    ensures Translate(s).Obj? && var m, w := s.members, Translate(s).members;
      && "$ref" !in w && "allOf" !in w && "anyOf" !in w
      && (forall k | k in KEPT_KEYS :: k in w <==> k in m)
      && (forall k | k in KEPT_KEYS && k in m :: w[k] == Translate(m[k]))
      && ("type" in w <==> "type" in m)
      && ("type" in m ==>
            w["type"] == if "nullable" in m then Arr([m["type"], Str("null")]) else m["type"])
  {
    hide Emitted, Translate, IsPlain, MoveNullable, IsRef;
    PlainMembers(s);
    var m := s.members;
    assert s == Obj(m);
    var copied := TranslateUnfolds(m);
    NullableMoved(copied);
    assert forall k | k in KEPT_KEYS :: k != "type" && k != "nullable";
  }

  lemma PlainMembers(s: Json)
    requires IsPlain(s)
    ensures s.Obj? && var m := s.members;
      && "$ref" !in m && "allOf" !in m && "anyOf" !in m
      && ("type" in m ==> m["type"].Str? && Translate(m["type"]) == m["type"])
      && ("nullable" in m ==> m["nullable"] == Translate(m["nullable"]) == Bool(true))
  {
    assert "anyOf" !in EMITTED_KEYS && "$ref" !in EMITTED_KEYS;
  }

  /** What MoveNullable does where there is no allOf. */
  lemma NullableMoved(out: map<string, Json>)
    requires "allOf" !in out && ("nullable" in out ==> out["nullable"] == Bool(true))
    requires "type" in out ==> out["type"].Str?
    ensures var w := MoveNullable(out);
      && w.Keys == out.Keys - {"nullable"}
      && (forall k | k in w && k != "type" :: w[k] == out[k])
      && ("type" in w ==> w["type"] == if "nullable" in out then Arr([out["type"], Str("null")]) else out["type"])
  {
  }

  lemma NullSchema(n: nat, x: Json, components: Components, reading: Reading)
    ensures ValidJsonSchema(n, NULL_SCHEMA, x, components, reading) <==> x.Null?
  {
  }

  lemma AnyOfTwo(n: nat, a: Json, b: Json, x: Json, components: Components, reading: Reading)
    ensures ValidJsonSchema(n, Obj(map["anyOf" := Arr([a, b])]), x, components, reading)
      <==> ValidJsonSchema(n, a, x, components, reading) || ValidJsonSchema(n, b, x, components, reading)
  {
    var s := Obj(map["anyOf" := Arr([a, b])]);
    assert s.members["anyOf"].items[0] == a && s.members["anyOf"].items[1] == b;
  }

  lemma TypeWithNull(t: Json, x: Json, reading: Reading)
    requires t.Str?
    ensures TypeAdmits(Arr([t, Str("null")]), x, reading) <==> HasType(x, t.s, reading) || x.Null?
  {
    var names := [t, Str("null")];
    assert names[0] == t && names[1] == Str("null");
  }

  // ---------------------------------------------------------------- the rewrite keeps validity

  ghost predicate EmittedComponents(components: Components) {
    forall n | n in components :: Emitted(components[n])
  }

  /** A value is valid under an emitted schema exactly when it is valid under its translation, however
      often references are followed, through recursive components, and whatever unresolved references
      and integer literals are taken to mean. */
  lemma {:induction false} TranslationKeepsValidity(n: nat, s: Json, x: Json, components: Components, reading: Reading)
    requires Emitted(s) && EmittedComponents(components)
    ensures ValidJsonSchema(n, Translate(s), x, TranslateComponents(components), reading)
      <==> ValidOpenApi(n, s, x, components, reading)
    decreases n, s, 2
  {
    hide *;
    EmittedShape(s);
    if IsRef(s) {
      var name := RefName(s);
      if n > 0 && name in components {
        ComponentEmitted(components, name);
        TranslationKeepsValidity(n - 1, components[name], x, components, reading);
      }
      RefAgrees(n, name, x, components, reading);
    } else if "allOf" in s.members {
      var inner := s.members["allOf"].items[0];
      TranslationKeepsValidity(n, inner, x, components, reading);
      WrapperAgrees(n, inner, x, components, reading);
    } else {
      PlainKeepsValidity(n, s, x, components, reading);
    }
  }

  /** The three kinds of emitted schemas. */
  lemma EmittedShape(s: Json)
    requires Emitted(s)
    ensures s.Obj? && (IsRef(s) ==> s == RefTo(RefName(s)))
    ensures !IsRef(s) && "allOf" in s.members ==>
      && s.members["allOf"].Arr? && |s.members["allOf"].items| == 1
      && var inner := s.members["allOf"].items[0];
      inner < s && Emitted(inner) && s == Wrapper(inner)
    ensures !IsRef(s) && "allOf" !in s.members ==> IsPlain(s)
  {
  }

  lemma ComponentEmitted(components: Components, name: string)
    requires EmittedComponents(components) && name in components
    ensures Emitted(components[name])
  {
  }

  lemma RefAgrees(n: nat, name: string, x: Json, components: Components, reading: Reading)
    requires n > 0 && name in components ==>
      (ValidJsonSchema(n - 1, Translate(components[name]), x, TranslateComponents(components), reading)
       <==> ValidOpenApi(n - 1, components[name], x, components, reading))
    ensures ValidJsonSchema(n, Translate(RefTo(name)), x, TranslateComponents(components), reading)
      <==> ValidOpenApi(n, RefTo(name), x, components, reading)
  {
    RefTranslated(name);
    HeldRef(name, {name});
    hide Translate, Emitted;
  }

  lemma WrapperAgrees(n: nat, inner: Json, x: Json, components: Components, reading: Reading)
    requires ValidJsonSchema(n, Translate(inner), x, TranslateComponents(components), reading)
      <==> ValidOpenApi(n, inner, x, components, reading)
    ensures ValidJsonSchema(n, Translate(Wrapper(inner)), x, TranslateComponents(components), reading)
      <==> ValidOpenApi(n, Wrapper(inner), x, components, reading)
  {
    var translated := TranslateComponents(components);
    WrapperTranslated(inner);
    WrapperValid(n, inner, x, components, reading);
    hide *;
    AnyOfTwo(n, Translate(inner), NULL_SCHEMA, x, translated, reading);
    NullSchema(n, x, translated, reading);
  }

  lemma WrapperValid(n: nat, inner: Json, x: Json, components: Components, reading: Reading)
    ensures ValidOpenApi(n, Wrapper(inner), x, components, reading)
      <==> x.Null? || ValidOpenApi(n, inner, x, components, reading)
  {
  }

  lemma {:induction false} ItemsAgree(n: nat, s: Json, x: Json, components: Components, reading: Reading)
    requires Emitted(s) && EmittedComponents(components) && x.Arr?
    ensures forall i | 0 <= i < |x.items| ::
      ValidJsonSchema(n, Translate(s), x.items[i], TranslateComponents(components), reading)
      <==> ValidOpenApi(n, s, x.items[i], components, reading)
    decreases n, s, 3
  {
    hide Emitted, Translate, EmittedComponents, ValidOpenApi, ValidJsonSchema;
    forall i | 0 <= i < |x.items| {
      TranslationKeepsValidity(n, s, x.items[i], components, reading);
    }
  }

  lemma {:induction false} MembersAgree(n: nat, s: Json, x: Json, components: Components, reading: Reading)
    requires Emitted(s) && EmittedComponents(components) && x.Obj?
    ensures forall p | p in x.members ::
      ValidJsonSchema(n, Translate(s), x.members[p], TranslateComponents(components), reading)
      <==> ValidOpenApi(n, s, x.members[p], components, reading)
    decreases n, s, 3
  {
    hide Emitted, Translate, EmittedComponents, ValidOpenApi, ValidJsonSchema;
    forall p | p in x.members {
      TranslationKeepsValidity(n, s, x.members[p], components, reading);
    }
  }

  lemma {:induction false} PropertiesAgree(n: nat, s: Json, x: Json, components: Components, reading: Reading)
    requires IsPlain(s) && EmittedComponents(components) && x.Obj? && "properties" in s.members
    ensures var ps := s.members["properties"].members;
      forall p | p in ps && p in x.members ::
        ValidJsonSchema(n, Translate(ps[p]), x.members[p], TranslateComponents(components), reading)
        <==> ValidOpenApi(n, ps[p], x.members[p], components, reading)
    decreases n, s, 0
  {
    var ps := s.members["properties"].members;
    assert forall p | p in ps :: Emitted(ps[p]);
    hide Emitted, Translate, EmittedComponents, ValidOpenApi, ValidJsonSchema;
    forall p | p in ps && p in x.members {
      TranslationKeepsValidity(n, ps[p], x.members[p], components, reading);
    }
  }

  lemma {:induction false} PlainKeepsValidity(n: nat, s: Json, x: Json, components: Components, reading: Reading)
    requires IsPlain(s) && EmittedComponents(components)
    ensures ValidJsonSchema(n, Translate(s), x, TranslateComponents(components), reading)
      <==> ValidOpenApi(n, s, x, components, reading)
    decreases n, s, 1
  {
    var m := s.members;
    PlainTranslated(s);
    PlainShape(s);
    assert Translate(s).Obj?;
    hide Emitted, Translate, EmittedComponents, HasType, TypeAdmits, IsStrings, ValidOpenApi, ValidJsonSchema;
    if x.Obj? {
      if "properties" in m {
        PropertiesAgree(n, s, x, components, reading);
      }
      if "additionalProperties" in m {
        MembersAgree(n, m["additionalProperties"], x, components, reading);
      }
      ObjectAgrees(n, s, x, components, reading);
    } else {
      if "items" in m && x.Arr? {
        ItemsAgree(n, m["items"], x, components, reading);
      }
      NoObjectAgrees(n, s, x, components, reading);
    }
  }

  lemma PlainShape(s: Json)
    requires IsPlain(s)
    ensures s.Obj? && var m, w := s.members, Translate(s).members;
      && ("items" in m ==> Emitted(m["items"]))
      && ("additionalProperties" in m ==> Emitted(m["additionalProperties"]))
      && ("properties" in m ==> m["properties"].Obj?)
      && ("type" in m ==> m["type"].Str?)
      && ("nullable" in m ==> m["nullable"] == Bool(true))
      && ("required" in m ==> IsStrings(m["required"]) && Translate(m["required"]) == m["required"])
      && !IsWrapper(m)
  {
  }

  /** The clauses on a value that is no object. */
  lemma NoObjectAgrees(n: nat, s: Json, x: Json, components: Components, reading: Reading)
    requires IsPlain(s) && !x.Obj?
    requires "items" in s.members && x.Arr? ==> forall i | 0 <= i < |x.items| ::
      ValidJsonSchema(n, Translate(s.members["items"]), x.items[i], TranslateComponents(components), reading)
      <==> ValidOpenApi(n, s.members["items"], x.items[i], components, reading)
    ensures ValidJsonSchema(n, Translate(s), x, TranslateComponents(components), reading)
      <==> ValidOpenApi(n, s, x, components, reading)
  {
    var m := s.members;
    PlainTranslated(s);
    PlainShape(s);
    if "type" in m {
      TypeWithNull(m["type"], x, reading);
    }
    hide Emitted, Translate, HasType, IsStrings;
  }

  // The clauses on an object's members, in each dialect.

  ghost predicate OpenProperties(n: nat, m: map<string, Json>, x: Json, components: Components, reading: Reading)
    requires x.Obj?
  {
    "properties" in m && m["properties"].Obj? ==>
      forall p | p in m["properties"].members && p in x.members ::
        ValidOpenApi(n, m["properties"].members[p], x.members[p], components, reading)
  }

  ghost predicate JsonProperties(n: nat, m: map<string, Json>, x: Json, components: Components, reading: Reading)
    requires x.Obj?
  {
    "properties" in m && m["properties"].Obj? ==>
      forall p | p in m["properties"].members && p in x.members ::
        ValidJsonSchema(n, m["properties"].members[p], x.members[p], components, reading)
  }

  ghost predicate OpenAdditional(n: nat, m: map<string, Json>, x: Json, components: Components, reading: Reading)
    requires x.Obj?
  {
    "additionalProperties" in m ==>
      forall p | p in x.members && p !in MemberObject(m, "properties") ::
        ValidOpenApi(n, m["additionalProperties"], x.members[p], components, reading)
  }

  ghost predicate JsonAdditional(n: nat, m: map<string, Json>, x: Json, components: Components, reading: Reading)
    requires x.Obj?
  {
    "additionalProperties" in m ==>
      forall p | p in x.members && p !in MemberObject(m, "properties") ::
        ValidJsonSchema(n, m["additionalProperties"], x.members[p], components, reading)
  }

  predicate HasRequired(m: map<string, Json>, x: Json)
    requires x.Obj?
  {
    "required" in m && m["required"].Arr? ==>
      forall r | r in m["required"].items && r.Str? :: r.s in x.members
  }

  lemma OpenOnObject(n: nat, s: Json, x: Json, components: Components, reading: Reading)
    requires IsPlain(s) && x.Obj?
    ensures ValidOpenApi(n, s, x, components, reading) <==>
      && ("type" in s.members ==>
            HasType(x, MemberString(s.members, "type"), reading) || ("nullable" in s.members && x.Null?))
      && OpenProperties(n, s.members, x, components, reading) && OpenAdditional(n, s.members, x, components, reading)
      && HasRequired(s.members, x)
  {
    PlainShape(s);
    hide Emitted, HasType, IsStrings, MemberObject, Translate;
  }

  lemma JsonOnObject(n: nat, w: map<string, Json>, x: Json, components: Components, reading: Reading)
    requires x.Obj? && "$ref" !in w && "allOf" !in w && "anyOf" !in w
    ensures ValidJsonSchema(n, Obj(w), x, components, reading) <==>
      && ("type" in w ==> TypeAdmits(w["type"], x, reading))
      && JsonProperties(n, w, x, components, reading) && JsonAdditional(n, w, x, components, reading)
      && HasRequired(w, x)
  {
    hide TypeAdmits, MemberObject;
  }

  /** The clauses on an object agree. */
  lemma ObjectAgrees(n: nat, s: Json, x: Json, components: Components, reading: Reading)
    requires IsPlain(s) && x.Obj?
    requires "properties" in s.members ==> s.members["properties"].Obj? && var ps := s.members["properties"].members;
      forall p | p in ps && p in x.members ::
        ValidJsonSchema(n, Translate(ps[p]), x.members[p], TranslateComponents(components), reading)
        <==> ValidOpenApi(n, ps[p], x.members[p], components, reading)
    requires "additionalProperties" in s.members ==>
      var more := s.members["additionalProperties"];
      forall p | p in x.members ::
        ValidJsonSchema(n, Translate(more), x.members[p], TranslateComponents(components), reading)
        <==> ValidOpenApi(n, more, x.members[p], components, reading)
    ensures ValidJsonSchema(n, Translate(s), x, TranslateComponents(components), reading)
      <==> ValidOpenApi(n, s, x, components, reading)
  {
    hide *;
    PlainTranslated(s);
    PlainShape(s);
    var m, w := s.members, Translate(s).members;
    OpenOnObject(n, s, x, components, reading);
    JsonOnObject(n, w, x, TranslateComponents(components), reading);
    TypesAgree(s, x, reading);
    RequiredAgrees(s, x);
    MembersOfObjectAgree(n, s, x, components, reading);
  }

  lemma TypesAgree(s: Json, x: Json, reading: Reading)
    requires IsPlain(s)
    ensures s.Obj? && Translate(s).Obj? && var m, w := s.members, Translate(s).members;
      ("type" in w ==> TypeAdmits(w["type"], x, reading))
      <==> ("type" in m ==> HasType(x, MemberString(m, "type"), reading) || ("nullable" in m && x.Null?))
  {
    PlainTranslated(s);
    PlainShape(s);
    if "type" in s.members {
      TypeWithNull(s.members["type"], x, reading);
    }
    hide Emitted, Translate, HasType, IsStrings, IsPlain, IsRef, IsWrapper;
  }

  lemma RequiredAgrees(s: Json, x: Json)
    requires IsPlain(s) && x.Obj?
    ensures s.Obj? && Translate(s).Obj? && (HasRequired(Translate(s).members, x) <==> HasRequired(s.members, x))
  {
    PlainTranslated(s);
    PlainShape(s);
    assert "required" in KEPT_KEYS;
    hide Emitted, Translate, IsPlain, IsStrings, IsRef, IsWrapper;
  }

  lemma MembersOfObjectAgree(n: nat, s: Json, x: Json, components: Components, reading: Reading)
    requires IsPlain(s) && x.Obj?
    requires "properties" in s.members ==> s.members["properties"].Obj? && var ps := s.members["properties"].members;
      forall p | p in ps && p in x.members ::
        ValidJsonSchema(n, Translate(ps[p]), x.members[p], TranslateComponents(components), reading)
        <==> ValidOpenApi(n, ps[p], x.members[p], components, reading)
    requires "additionalProperties" in s.members ==>
      var more := s.members["additionalProperties"];
      forall p | p in x.members ::
        ValidJsonSchema(n, Translate(more), x.members[p], TranslateComponents(components), reading)
        <==> ValidOpenApi(n, more, x.members[p], components, reading)
    ensures Translate(s).Obj?
    ensures var m, w, translated := s.members, Translate(s).members, TranslateComponents(components);
      && (JsonProperties(n, w, x, translated, reading) <==> OpenProperties(n, m, x, components, reading))
      && (JsonAdditional(n, w, x, translated, reading) <==> OpenAdditional(n, m, x, components, reading))
  {
    PlainTranslated(s);
    PlainShape(s);
    var m, w := s.members, Translate(s).members;
    assert "properties" in KEPT_KEYS && "additionalProperties" in KEPT_KEYS;
    if "properties" in m {
      assert forall p | p in m["properties"].members :: Emitted(m["properties"].members[p]);
      PropertiesTranslated(m["properties"].members);
      assert MemberObject(w, "properties").Keys == MemberObject(m, "properties").Keys;
    }
    hide Emitted, Translate, IsPlain, IsRef, IsWrapper, IsStrings, ValidOpenApi, ValidJsonSchema;
  }

  // ---------------------------------------------------------------- without a bound on references

  /** No path into x is longer than h. */
  ghost predicate HeightAtMost(x: Json, h: nat) {
    match x
    case Arr(items) => items == [] || (h > 0 && forall i | 0 <= i < |items| :: HeightAtMost(items[i], h - 1))
    case Obj(m) => m == map[] || (h > 0 && forall p | p in m :: HeightAtMost(m[p], h - 1))
    case _ => true
  }

  lemma {:induction false} HigherStill(x: Json, h: nat, k: nat)
    requires HeightAtMost(x, h) && h <= k
    ensures HeightAtMost(x, k)
    decreases x
  {
    match x
    case Arr(items) =>
      forall i | 0 <= i < |items| ensures k > 0 && HeightAtMost(items[i], k - 1) {
        HigherStill(items[i], h - 1, k - 1);
      }
    case Obj(m) =>
      forall p | p in m ensures k > 0 && HeightAtMost(m[p], k - 1) {
        HigherStill(m[p], h - 1, k - 1);
      }
    case _ =>
  }

  lemma {:induction false} HasHeight(x: Json) returns (h: nat)
    ensures HeightAtMost(x, h)
    decreases x
  {
    h := 0;
    match x {
      case Arr(items) =>
        var i := 0;
        while i < |items|
          invariant 0 <= i <= |items| && (i > 0 ==> h > 0 && forall j | 0 <= j < i :: HeightAtMost(items[j], h - 1))
        {
          var k := HasHeight(items[i]);
          var higher := if k + 1 > h then k + 1 else h;
          forall j | 0 <= j <= i ensures HeightAtMost(items[j], higher - 1) {
            HigherStill(items[j], if j == i then k else h - 1, higher - 1);
          }
          h, i := higher, i + 1;
        }
      case Obj(m) =>
        var todo := m.Keys;
        while todo != {}
          invariant todo <= m.Keys && (todo != m.Keys ==> h > 0)
          invariant forall p | p in m && p !in todo :: HeightAtMost(m[p], h - 1)
        {
          var p :| p in todo;
          var k := HasHeight(m[p]);
          var higher := if k + 1 > h then k + 1 else h;
          forall q | q in m && q !in todo - {p} ensures HeightAtMost(m[q], higher - 1) {
            HigherStill(m[q], if q == p then k else h - 1, higher - 1);
          }
          h, todo := higher, todo - {p};
        }
      case _ =>
    }
  }

  /** Enough references may be followed: more than the value is high, or as many below a body. */
  predicate Enough(n: nat, s: Json, h: nat) { n > h || (n == h && IsBody(s)) }

  /** With enough references to follow, validity does not depend on how many may be followed, nor on what
      an unresolved reference says. */
  lemma {:induction false} BoundIsIrrelevant(n: nat, k: nat, s: Json, x: Json, h: nat, components: Components,
      integral: string -> bool, u: bool, w: bool)
    requires Held(s, components.Keys) && ClosedBodies(components)
    requires HeightAtMost(x, h) && Enough(n, s, h) && Enough(k, s, h)
    ensures ValidOpenApi(n, s, x, components, Reading(integral, u))
      <==> ValidOpenApi(k, s, x, components, Reading(integral, w))
    decreases n, s, 2
  {
    if IsRef(s) {
      var name := RefName(s);
      assert RefTarget(s.members["$ref"]) == Some(name) && name in components;
      hide ValidOpenApi;
      RefValid(n, s, name, x, components, Reading(integral, u));
      RefValid(k, s, name, x, components, Reading(integral, w));
      BoundIsIrrelevant(n - 1, k - 1, components[name], x, h, components, integral, u, w);
    } else if "allOf" in s.members {
      var inner := s.members["allOf"].items[0];
      assert s == Wrapper(inner);
      WrapperHolds(inner, components.Keys);
      assert inner < s;
      BoundIsIrrelevant(n, k, inner, x, h, components, integral, u, w);
    } else {
      PlainIgnoresBound(n, k, s, x, h, components, integral, u, w);
    }
  }

  lemma RefValid(n: nat, s: Json, name: string, x: Json, components: Components, reading: Reading)
    requires n > 0 && IsRef(s) && RefTarget(s.members["$ref"]) == Some(name) && name in components
    ensures ValidOpenApi(n, s, x, components, reading)
      <==> ValidOpenApi(n - 1, components[name], x, components, reading)
  {
  }

  lemma WrapperHolds(inner: Json, keys: set<string>)
    requires Held(Wrapper(inner), keys)
    ensures Held(inner, keys) && !IsBody(Wrapper(inner))
  {
    var w := Wrapper(inner);
    assert w.members["allOf"].items[0] == inner;
    forall r | r in Refs(inner) ensures r in keys {
      assert r in KeywordRefs("allOf", w.members["allOf"]);
    }
  }

  /** The schemas a plain schema holds refer to what it refers to. */
  lemma PartsHeld(s: Json, keys: set<string>)
    requires IsPlain(s) && Held(s, keys)
    ensures var m := s.members;
      && ("items" in m ==> Held(m["items"], keys))
      && ("additionalProperties" in m ==> Held(m["additionalProperties"], keys))
      && ("properties" in m ==>
            m["properties"].Obj? && forall p | p in m["properties"].members :: Held(m["properties"].members[p], keys))
  {
    var m := s.members;
    forall k, r | k in m && r in KeywordRefs(k, m[k]) ensures r in keys {
      assert r in Refs(s);
    }
    if "properties" in m {
      forall p, r | p in m["properties"].members && r in Refs(m["properties"].members[p]) ensures r in keys {
        assert r in KeywordRefs("properties", m["properties"]);
      }
    }
  }

  lemma OpenOnOther(n: nat, s: Json, x: Json, components: Components, reading: Reading)
    requires IsPlain(s) && !x.Obj?
    ensures ValidOpenApi(n, s, x, components, reading) <==>
      && ("type" in s.members ==>
            HasType(x, MemberString(s.members, "type"), reading) || ("nullable" in s.members && x.Null?))
      && ("items" in s.members && x.Arr? ==>
            forall i | 0 <= i < |x.items| :: ValidOpenApi(n, s.members["items"], x.items[i], components, reading))
  {
    PlainShape(s);
    hide Emitted, HasType, IsStrings, Translate;
  }

  lemma {:induction false} PlainIgnoresBound(n: nat, k: nat, s: Json, x: Json, h: nat, components: Components,
      integral: string -> bool, u: bool, w: bool)
    requires IsPlain(s) && Held(s, components.Keys) && ClosedBodies(components)
    requires HeightAtMost(x, h) && n >= h && k >= h
    ensures ValidOpenApi(n, s, x, components, Reading(integral, u))
      <==> ValidOpenApi(k, s, x, components, Reading(integral, w))
    decreases n, s, 1
  {
    var one, two := Reading(integral, u), Reading(integral, w);
    var m := s.members;
    PartsHeld(s, components.Keys);
    TypesAlike(x, integral, u, w);
    hide *;
    if x.Obj? {
      OpenOnObject(n, s, x, components, one);
      OpenOnObject(k, s, x, components, two);
      if "additionalProperties" in m {
        EachMemberIgnoresBound(n, k, m["additionalProperties"], x, h, components, integral, u, w);
      }
      PropertiesIgnoreBound(n, k, s, x, h, components, integral, u, w);
      AdditionalAlike(n, k, s, x, components, one, two);
    } else {
      OpenOnOther(n, s, x, components, one);
      OpenOnOther(k, s, x, components, two);
      if x.Arr? && "items" in m {
        EachItemIgnoresBound(n, k, m["items"], x, h, components, integral, u, w);
      }
    }
  }

  lemma TypesAlike(x: Json, integral: string -> bool, u: bool, w: bool)
    ensures forall t :: HasType(x, t, Reading(integral, u)) <==> HasType(x, t, Reading(integral, w))
  {
  }

  lemma AdditionalAlike(n: nat, k: nat, s: Json, x: Json, components: Components, one: Reading, two: Reading)
    requires s.Obj? && x.Obj?
    requires "additionalProperties" in s.members ==> forall p | p in x.members ::
      ValidOpenApi(n, s.members["additionalProperties"], x.members[p], components, one)
      <==> ValidOpenApi(k, s.members["additionalProperties"], x.members[p], components, two)
    ensures OpenAdditional(n, s.members, x, components, one) <==> OpenAdditional(k, s.members, x, components, two)
  {
    hide ValidOpenApi;
  }

  lemma {:induction false} EachMemberIgnoresBound(n: nat, k: nat, part: Json, x: Json, h: nat,
      components: Components, integral: string -> bool, u: bool, w: bool)
    requires Held(part, components.Keys) && ClosedBodies(components)
    requires x.Obj? && HeightAtMost(x, h) && n >= h && k >= h
    ensures forall p | p in x.members ::
      ValidOpenApi(n, part, x.members[p], components, Reading(integral, u))
      <==> ValidOpenApi(k, part, x.members[p], components, Reading(integral, w))
    decreases n, part, 3
  {
    hide Held, ClosedBodies, ValidOpenApi;
    forall p | p in x.members {
      BoundIsIrrelevant(n, k, part, x.members[p], h - 1, components, integral, u, w);
    }
  }

  lemma {:induction false} EachItemIgnoresBound(n: nat, k: nat, part: Json, x: Json, h: nat,
      components: Components, integral: string -> bool, u: bool, w: bool)
    requires Held(part, components.Keys) && ClosedBodies(components)
    requires x.Arr? && HeightAtMost(x, h) && n >= h && k >= h
    ensures forall i | 0 <= i < |x.items| ::
      ValidOpenApi(n, part, x.items[i], components, Reading(integral, u))
      <==> ValidOpenApi(k, part, x.items[i], components, Reading(integral, w))
    decreases n, part, 3
  {
    hide Held, ClosedBodies, ValidOpenApi;
    forall i | 0 <= i < |x.items| {
      BoundIsIrrelevant(n, k, part, x.items[i], h - 1, components, integral, u, w);
    }
  }

  lemma {:induction false} PropertiesIgnoreBound(n: nat, k: nat, s: Json, x: Json, h: nat, components: Components,
      integral: string -> bool, u: bool, w: bool)
    requires IsPlain(s) && Held(s, components.Keys) && ClosedBodies(components)
    requires x.Obj? && HeightAtMost(x, h) && n >= h && k >= h
    ensures OpenProperties(n, s.members, x, components, Reading(integral, u))
      <==> OpenProperties(k, s.members, x, components, Reading(integral, w))
    decreases n, s, 0
  {
    var m := s.members;
    PartsHeld(s, components.Keys);
    hide Held, ClosedBodies, ValidOpenApi, IsPlain, Emitted;
    forall p | p in x.members && "properties" in m && p in m["properties"].members
      ensures ValidOpenApi(n, m["properties"].members[p], x.members[p], components, Reading(integral, u))
        <==> ValidOpenApi(k, m["properties"].members[p], x.members[p], components, Reading(integral, w))
    {
      BoundIsIrrelevant(n, k, m["properties"].members[p], x.members[p], h - 1, components, integral, u, w);
    }
  }

  /** Over closed components, from some number of references on, a value is valid under a schema exactly
      when it is valid under the translation - whatever that number, and whatever an unresolved
      reference is taken to say. */
  lemma TranslationKeepsResolvedValidity(s: Json, x: Json, components: Components, integral: string -> bool)
    returns (enough: nat)
    requires Held(s, components.Keys) && ClosedBodies(components)
    ensures forall n: nat, k: nat, u: bool, w: bool | n >= enough && k >= enough ::
      ValidJsonSchema(n, Translate(s), x, TranslateComponents(components), Reading(integral, u))
      <==> ValidOpenApi(k, s, x, components, Reading(integral, w))
  {
    var h := HasHeight(x);
    enough := h + 1;
    assert EmittedComponents(components);
    hide HeightAtMost, Held, ClosedBodies, ValidOpenApi, ValidJsonSchema, Translate, TranslateComponents,
      EmittedComponents;
    assert Emitted(s) by { HeldIsEmitted(s, components.Keys); }
    forall n: nat, k: nat, u: bool, w: bool | n >= enough && k >= enough
      ensures ValidJsonSchema(n, Translate(s), x, TranslateComponents(components), Reading(integral, u))
        <==> ValidOpenApi(k, s, x, components, Reading(integral, w))
    {
      TranslationKeepsValidity(n, s, x, components, Reading(integral, u));
      BoundIsIrrelevant(n, k, s, x, h, components, integral, u, w);
    }
  }

  lemma HeldIsEmitted(s: Json, keys: set<string>)
    requires Held(s, keys)
    ensures Emitted(s)
  {
  }
}
