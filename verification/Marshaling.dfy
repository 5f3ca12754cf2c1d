/** What a derived schema says of the values of its type: which JSON values it admits, and that it admits
    what encoding/json writes for the type - unless a nil slice or map is among it. */
module Marshaling {
  import opened JsonTrees
  import opened Options
  import opened Sorting
  import opened SortedNames
  import opened GoTypes
  import opened SchemaDeriver
  import opened DeriverLaws
  import opened StructProperties
  import opened SchemaShapes
  import opened Hash
  import opened HashHoisting
  import opened JsonSchemaTranslation

  /** Which number literals are integers. */
  type Integers = string -> bool

  // ---------------------------------------------------------------- what a schema admits, by type

  /** x has the shape of a value of type t. inside holds the named structs without a component name that
      t is written within: met again there, such a struct is not described. */
  ghost predicate Conforms(env: Types, t: TypeId, inside: set<TypeId>, x: Json, integral: Integers)
    requires Finite(env) && t < |env|
    decreases x, t + 1
  {
    var ty := env[t];
    var k := ty.kind;
    if ty.time then x.Str?
    else if ty.rawMessage then true
    else if k.Pointer? then
      if ty.jsonMarshaler && !env[k.elem].time && !env[k.elem].jsonMarshaler then true
      else if ty.textMarshaler && !env[k.elem].textMarshaler then x.Null? || x.Str?
      else
        assert NeedsEarlier(env, t);
        x.Null? || Conforms(env, k.elem, inside, x, integral)
    else if ty.jsonMarshaler then true
    else if ty.textMarshaler then x.Str?
    else if k.StringKind? then x.Str?
    else if k.BoolKind? then x.Bool?
    else if k.Float32Kind? || k.Float64Kind? then x.Num?
    else if IntegerKind(k) then x.Num? && integral(x.literal)
    else if k.Slice? && IsByte(env[k.elem]) then x.Str?
    else if k.Slice? || k.Array? then
      x.Arr? && forall i | 0 <= i < |x.items| :: Conforms(env, k.elem, inside, x.items[i], integral)
    else if k.MapOf? && StringKeyed(env[k.key]) then
      x.Obj? && forall p | p in x.members :: Conforms(env, k.elem, inside, x.members[p], integral)
    else if k.Struct? && Hoisted(ty) then x.Obj? && FieldsConform(env, k.fields, {}, x, integral)
    else if k.Struct? && Hoistable(ty) then
      t in inside || (x.Obj? && FieldsConform(env, k.fields, inside + {t}, x, integral))
    else if k.Struct? then x.Obj? && FieldsConform(env, k.fields, inside, x, integral)
    else true
  }

  /** What encoding/json writes in base64 when it is the element of a slice. */
  predicate IsByte(t: GoType) { t.kind.Uint8Kind? && !t.jsonMarshaler && !t.textMarshaler }

  /** Every property that is there conforms, and those always written are there. */
  ghost predicate FieldsConform(env: Types, fields: seq<JsonField>, inside: set<TypeId>, x: Json, integral: Integers)
    requires Finite(env) && x.Obj? && forall f | f in fields :: f.typ < |env|
    decreases x, 0
  {
    forall f | f in fields ::
      if f.name in x.members then FieldConforms(env, f, inside, x.members[f.name], integral) else f.omittable
  }

  /** A property with the ",string" option is a string. */
  ghost predicate FieldConforms(env: Types, f: JsonField, inside: set<TypeId>, y: Json, integral: Integers)
    requires Finite(env) && f.typ < |env|
    decreases y, |env| + 2
  {
    if f.quoted then y.Str? || (env[f.typ].kind.Pointer? && y.Null?)
    else Conforms(env, f.typ, inside, y, integral)
  }

  // ---------------------------------------------------------------- leaves

  lemma ScalarValid(n: nat, name: string, nullable: bool, s: Json, x: Json, components: Components, reading: Reading)
    requires IsScalarSchema(s, name, nullable)
    ensures ValidOpenApi(n, s, x, components, reading) <==> Admits(name, nullable, x, reading.integral)
  {
  }

  lemma EmptyValid(n: nat, x: Json, components: Components, reading: Reading)
    ensures ValidOpenApi(n, EMPTY, x, components, reading)
  {
  }

  /** A type that needs no other's schema. */
  lemma LeafValid(env: Types, t: TypeId, visiting: set<TypeId>, x: Json, n: nat, components: Components,
      reading: Reading)
    requires Finite(env) && t < |env| && IsLeaf(env, t)
    ensures ValidOpenApi(n, SchemaAlone(env, t, visiting), x, components, reading)
      <==> Conforms(env, t, visiting, x, reading.integral)
  {
    var s := LeafSchema(env, t);
    assert SchemaAlone(env, t, visiting) == s;
    hide *;
    var name, nullable := LeafConforms(env, t, visiting, x, reading.integral);
    if s == EMPTY {
      EmptyValid(n, x, components, reading);
    } else {
      ScalarValid(n, name, nullable, s, x, components, reading);
    }
  }

  /** The JSON type each type name admits. */
  lemma TypeNames(x: Json, reading: Reading)
    ensures HasType(x, "string", reading) <==> x.Str?
    ensures HasType(x, "boolean", reading) <==> x.Bool?
    ensures HasType(x, "number", reading) <==> x.Num?
    ensures HasType(x, "integer", reading) <==> x.Num? && reading.integral(x.literal)
    ensures HasType(x, "array", reading) <==> x.Arr?
    ensures HasType(x, "object", reading) <==> x.Obj?
  {
  }

  /** Admitted by the schema of one type name, nullable or not. */
  predicate Admits(name: string, nullable: bool, x: Json, integral: Integers) {
    HasType(x, name, Reading(integral, true)) || (nullable && x.Null?)
  }

  /** A leaf's schema admits anything, or names one type. */
  lemma LeafConforms(env: Types, t: TypeId, inside: set<TypeId>, x: Json, integral: Integers)
    returns (name: string, nullable: bool)
    requires Finite(env) && t < |env| && IsLeaf(env, t)
    ensures LeafSchema(env, t) == EMPTY ==> Conforms(env, t, inside, x, integral)
    ensures LeafSchema(env, t) != EMPTY ==>
      && IsScalarSchema(LeafSchema(env, t), name, nullable)
      && (Conforms(env, t, inside, x, integral) <==> Admits(name, nullable, x, integral))
  {
    TypeNames(x, Reading(integral, true));
    var ty := env[t];
    var k := ty.kind;
    if ty.time {
      name, nullable := "string", false;
      FormattedIsScalar(name, "date-time");
    } else if ty.rawMessage {
      name, nullable := "", false;
    } else if k.Pointer? {
      name, nullable := "string", true;
    } else if ty.jsonMarshaler {
      name, nullable := "", false;
    } else if ty.textMarshaler || k.StringKind? {
      name, nullable := "string", false;
      TypedIsScalar(name);
    } else {
      name := KindLeafConforms(env, t, inside, x, integral);
      nullable := false;
    }
  }

  /** The schema of a type written by its kind. */
  lemma KindLeafConforms(env: Types, t: TypeId, inside: set<TypeId>, x: Json, integral: Integers)
    returns (name: string)
    requires Finite(env) && t < |env| && IsLeaf(env, t) && Plain(env[t]) && !env[t].kind.Pointer?
    ensures LeafSchema(env, t) == EMPTY ==> Conforms(env, t, inside, x, integral)
    ensures LeafSchema(env, t) != EMPTY ==>
      && IsScalarSchema(LeafSchema(env, t), name, false)
      && (Conforms(env, t, inside, x, integral) <==> Admits(name, false, x, integral))
  {
    TypeNames(x, Reading(integral, true));
    hide HasType;
    var k := env[t].kind;
    name :=
      if k.StringKind? || k.Slice? then "string" else if k.BoolKind? then "boolean"
      else if k.Float32Kind? || k.Float64Kind? then "number" else "integer";
    TypedIsScalar(name);
    forall format {
      FormattedIsScalar(name, format);
    }
    hide Typed, Formatted, IsScalarSchema;
  }

  /** s names one type, and its format if any. */
  predicate IsScalarSchema(s: Json, name: string, nullable: bool) {
    && s.Obj? && "type" in s.members && s.members["type"] == Str(name)
    && s.members.Keys <= {"type", "format", "nullable"} && ("nullable" in s.members <==> nullable)
    && ("nullable" in s.members ==> s.members["nullable"] == Bool(true))
  }

  lemma TypedIsScalar(name: string)
    ensures IsScalarSchema(Typed(name), name, false)
  {
  }

  lemma FormattedIsScalar(name: string, format: string)
    ensures IsScalarSchema(Formatted(name, format), name, false)
  {
  }

  // ---------------------------------------------------------------- pointers

  lemma NullableAdmitsNull(s: Json, n: nat, components: Components, reading: Reading)
    requires Emitted(s) && IsNullable(s)
    ensures ValidOpenApi(n, s, Null, components, reading)
  {
    if "allOf" !in s.members {
      assert IsPlain(s);
      OpenOnOther(n, s, Null, components, reading);
    }
  }

  lemma MarkedIsPlain(s: Json)
    requires Emitted(s) && s != EMPTY && !IsRef(s) && !IsNullable(s)
    ensures IsPlain(s) && IsPlain(Nullable(s)) && "type" in s.members
    ensures Nullable(s).members == s.members["nullable" := Bool(true)] && "nullable" !in s.members
  {
    HeldNullable(s, Refs(s));
  }

  /** Marking a schema nullable in place admits null besides. */
  lemma MarkedValid(s: Json, n: nat, x: Json, components: Components, reading: Reading)
    requires Emitted(s) && s != EMPTY && !IsRef(s) && !IsNullable(s)
    ensures ValidOpenApi(n, Nullable(s), x, components, reading)
      <==> x.Null? || ValidOpenApi(n, s, x, components, reading)
  {
    MarkedIsPlain(s);
    var marked := Nullable(s);
    hide Emitted, IsPlain, HasType, ValidOpenApi, Nullable;
    if x.Obj? {
      OpenOnObject(n, s, x, components, reading);
      OpenOnObject(n, marked, x, components, reading);
    } else {
      OpenOnOther(n, s, x, components, reading);
      OpenOnOther(n, marked, x, components, reading);
    }
  }

  /** However a pointer marks its target's schema, it admits null besides. */
  lemma PointToValid(elem: GoType, inner: Json, n: nat, x: Json, components: Components, reading: Reading)
    requires Emitted(inner)
    ensures ValidOpenApi(n, PointTo(elem, inner), x, components, reading)
      <==> x.Null? || ValidOpenApi(n, inner, x, components, reading)
  {
    assert inner.Obj?;
    hide Emitted, ValidOpenApi;
    if inner == EMPTY {
      EmptyValid(n, x, components, reading);
    } else if "$ref" in inner.members || (Hoistable(elem) && !IsNullable(inner)) {
      WrapperValid(n, inner, x, components, reading);
    } else if !IsNullable(inner) {
      MarkedValid(inner, n, x, components, reading);
    } else if x.Null? {
      NullableAdmitsNull(inner, n, components, reading);
    }
  }

  // ---------------------------------------------------------------- collections and objects

  lemma ArrayValid(items: Json, n: nat, x: Json, components: Components, reading: Reading)
    requires Emitted(items)
    ensures ValidOpenApi(n, Obj(map["type" := Str("array"), "items" := items]), x, components, reading)
      <==> x.Arr? && forall i | 0 <= i < |x.items| :: ValidOpenApi(n, items, x.items[i], components, reading)
  {
    HeldArray(items, Refs(items));
    var s := Obj(map["type" := Str("array"), "items" := items]);
    assert IsPlain(s) && "nullable" !in s.members && s.members["type"] == Str("array") && "items" in s.members;
    TypeNames(x, reading);
    hide Emitted, HasType, ValidOpenApi, IsPlain;
    if x.Obj? {
      OpenOnObject(n, s, x, components, reading);
    } else {
      OpenOnOther(n, s, x, components, reading);
    }
  }

  lemma MapValid(values: Json, n: nat, x: Json, components: Components, reading: Reading)
    requires Emitted(values)
    ensures ValidOpenApi(n, Obj(map["type" := Str("object"), "additionalProperties" := values]), x, components, reading)
      <==> x.Obj? && forall p | p in x.members :: ValidOpenApi(n, values, x.members[p], components, reading)
  {
    HeldMap(values, Refs(values));
    var s := Obj(map["type" := Str("object"), "additionalProperties" := values]);
    assert IsPlain(s) && "nullable" !in s.members && s.members["type"] == Str("object");
    assert "properties" !in s.members && "required" !in s.members && s.members["additionalProperties"] == values;
    TypeNames(x, reading);
    hide Emitted, HasType, ValidOpenApi, IsPlain;
    if x.Obj? {
      OpenOnObject(n, s, x, components, reading);
    } else {
      OpenOnOther(n, s, x, components, reading);
    }
  }

  lemma RequiredText(required: seq<string>, r: string)
    ensures Str(r) in Strs(StableSort(required, CodePointLess)).items <==> r in required
    ensures forall v | v in Strs(StableSort(required, CodePointLess)).items :: v.Str?
  {
    var sorted := StableSort(required, CodePointLess);
    assert r in multiset(sorted) <==> r in multiset(required);
    if r in required {
      var i :| 0 <= i < |sorted| && sorted[i] == r;
      assert Strs(sorted).items[i] == Str(r);
    }
  }

  lemma ObjectValid(properties: map<string, Json>, required: seq<string>, n: nat, x: Json, components: Components,
      reading: Reading)
    requires Emitted(ObjectSchema(properties, required))
    ensures ValidOpenApi(n, ObjectSchema(properties, required), x, components, reading)
      <==> (x.Obj?
            && (forall p | p in properties && p in x.members ::
                  ValidOpenApi(n, properties[p], x.members[p], components, reading))
            && (forall r | r in required :: r in x.members))
  {
    var s := ObjectSchema(properties, required);
    ObjectFacts(properties, required);
    forall r: string {
      RequiredText(required, r);
    }
    TypeNames(x, reading);
    hide Emitted, HasType, ValidOpenApi, IsPlain, ObjectSchema, StableSort, Strs;
    if x.Obj? {
      OpenOnObject(n, s, x, components, reading);
      assert HasRequired(s.members, x) <==> forall r | r in required :: r in x.members;
    } else {
      OpenOnOther(n, s, x, components, reading);
    }
  }

  lemma ObjectFacts(properties: map<string, Json>, required: seq<string>)
    requires Emitted(ObjectSchema(properties, required))
    ensures var s := ObjectSchema(properties, required);
      && IsPlain(s) && "nullable" !in s.members && "additionalProperties" !in s.members && "items" !in s.members
      && "type" in s.members && s.members["type"] == Str("object")
      && (properties != map[] <==> "properties" in s.members)
      && ("properties" in s.members ==> s.members["properties"] == Obj(properties))
      && (required != [] <==> "required" in s.members)
      && (required != [] ==> s.members["required"] == Strs(StableSort(required, CodePointLess)))
  {
    ObjectMembers(properties, required);
    hide Emitted, StableSort, Strs;
  }

  // ---------------------------------------------------------------- every type

  /** Finished components: closed, and each the object schema of its type. */
  ghost predicate FinishedFor(env: Types, components: Components)
    requires Finite(env)
  {
    && ClosedBodies(components)
    && forall t: TypeId | t < |env| && Hoisted(env[t]) && Plain(env[t]) && env[t].qualified in components ::
         IsObjectOf(env, FieldsOfType(env, t), {}, components[env[t].qualified])
  }

  /** A struct's object schema admits the objects whose properties conform. */
  lemma {:induction false} ObjectConforms(env: Types, fields: seq<JsonField>, inside: set<TypeId>, s: Json, x: Json,
      h: nat, n: nat, components: Components, reading: Reading)
    requires Finite(env) && DistinctProperties(env) && FinishedFor(env, components)
    requires (forall f | f in fields :: f.typ < |env|) && IsObjectOf(env, fields, inside, s)
    requires Held(s, components.Keys) && HeightAtMost(x, h) && n >= h
    ensures ValidOpenApi(n, s, x, components, reading)
      <==> x.Obj? && FieldsConform(env, fields, inside, x, reading.integral)
    decreases x, 0
  {
    hide Held, Emitted, ValidOpenApi, FinishedFor, SchemaAlone;
    var properties :|
      && s == ObjectSchema(properties, RequiredNames(fields))
      && (forall k :: k in properties <==> IsNamed(fields, k))
      && (forall i | 0 <= i < |fields| ::
            fields[i].name in properties && properties[fields[i].name] == FieldSchema(env, fields[i], inside));
    HeldIsEmitted(s, components.Keys);
    ObjectValid(properties, RequiredNames(fields), n, x, components, reading);
    if x.Obj? {
      ObjectPartsHeld(properties, RequiredNames(fields), components.Keys);
      forall i | 0 <= i < |fields| && fields[i].name in x.members
        ensures ValidOpenApi(n, properties[fields[i].name], x.members[fields[i].name], components, reading)
          <==> FieldConforms(env, fields[i], inside, x.members[fields[i].name], reading.integral)
      {
        FieldValid(env, fields[i], inside, x, h, n, components, reading);
      }
      forall r {
        RequiredAre(fields, r);
      }
      FieldsTogether(env, fields, inside, x, n, properties, components, reading);
    }
  }

  lemma ObjectPartsHeld(properties: map<string, Json>, required: seq<string>, keys: set<string>)
    requires Held(ObjectSchema(properties, required), keys)
    ensures forall p | p in properties :: Held(properties[p], keys)
  {
    var s := ObjectSchema(properties, required);
    ObjectMembers(properties, required);
    assert properties != map[] ==> "properties" in s.members;
    PartsHeld(s, keys);
  }

  lemma FieldsTogether(env: Types, fields: seq<JsonField>, inside: set<TypeId>, x: Json, n: nat,
      properties: map<string, Json>, components: Components, reading: Reading)
    requires Finite(env) && x.Obj? && forall f | f in fields :: f.typ < |env|
    requires forall k :: k in properties <==> IsNamed(fields, k)
    requires forall i | 0 <= i < |fields| && fields[i].name in x.members ::
      && fields[i].name in properties
      && (ValidOpenApi(n, properties[fields[i].name], x.members[fields[i].name], components, reading)
          <==> FieldConforms(env, fields[i], inside, x.members[fields[i].name], reading.integral))
    requires forall r :: r in RequiredNames(fields) <==>
      exists i :: 0 <= i < |fields| && fields[i].name == r && !fields[i].omittable
    ensures FieldsConform(env, fields, inside, x, reading.integral) <==>
      && (forall p | p in properties && p in x.members ::
            ValidOpenApi(n, properties[p], x.members[p], components, reading))
      && (forall r | r in RequiredNames(fields) :: r in x.members)
  {
    hide ValidOpenApi, FieldConforms, RequiredNames;
    var valid :=
      && (forall p | p in properties && p in x.members ::
            ValidOpenApi(n, properties[p], x.members[p], components, reading))
      && (forall r | r in RequiredNames(fields) :: r in x.members);
    if valid {
      forall f | f in fields
        ensures if f.name !in x.members then f.omittable
                else FieldConforms(env, f, inside, x.members[f.name], reading.integral)
      {
        var i :| 0 <= i < |fields| && fields[i] == f;
        assert !f.omittable ==> f.name in RequiredNames(fields);
      }
    }
    if FieldsConform(env, fields, inside, x, reading.integral) {
      forall p | p in properties && p in x.members
        ensures ValidOpenApi(n, properties[p], x.members[p], components, reading)
      {
        var i :| 0 <= i < |fields| && fields[i].name == p;
        assert fields[i] in fields;
      }
      forall r | r in RequiredNames(fields) ensures r in x.members {
        var i :| 0 <= i < |fields| && fields[i].name == r && !fields[i].omittable;
        assert fields[i] in fields;
      }
    }
  }

  lemma {:induction false} FieldValid(env: Types, f: JsonField, inside: set<TypeId>, x: Json, h: nat, n: nat,
      components: Components, reading: Reading)
    requires Finite(env) && DistinctProperties(env) && FinishedFor(env, components) && f.typ < |env|
    requires x.Obj? && f.name in x.members && HeightAtMost(x, h) && n >= h
    requires Held(FieldSchema(env, f, inside), components.Keys)
    ensures ValidOpenApi(n, FieldSchema(env, f, inside), x.members[f.name], components, reading)
      <==> FieldConforms(env, f, inside, x.members[f.name], reading.integral)
    decreases x.members[f.name], 2 * |env| + 3
  {
    var y := x.members[f.name];
    if f.quoted {
      QuotedValid(env[f.typ], n, y, components, reading);
    } else {
      hide ValidOpenApi, Held, FinishedFor;
      SchemaConforms(env, f.typ, inside, y, h - 1, n, components, reading);
    }
  }

  lemma QuotedValid(t: GoType, n: nat, y: Json, components: Components, reading: Reading)
    ensures ValidOpenApi(n, QuotedSchema(t), y, components, reading) <==> y.Str? || (t.kind.Pointer? && y.Null?)
  {
    TypeNames(y, Reading(reading.integral, true));
    TypedIsScalar("string");
    hide ValidOpenApi, HasType;
    ScalarValid(n, "string", t.kind.Pointer?, QuotedSchema(t), y, components, reading);
  }

  /** Over finished components a type's schema admits exactly the values of its shape, for every value and
      every number of references that may be followed beyond the value's height. */
  lemma {:induction false} SchemaConforms(env: Types, t: TypeId, inside: set<TypeId>, x: Json, h: nat, n: nat,
      components: Components, reading: Reading)
    requires Finite(env) && DistinctProperties(env) && FinishedFor(env, components) && t < |env|
    requires Held(SchemaAlone(env, t, inside), components.Keys) && HeightAtMost(x, h) && n > h
    ensures ValidOpenApi(n, SchemaAlone(env, t, inside), x, components, reading)
      <==> Conforms(env, t, inside, x, reading.integral)
    decreases x, 2 * t + 3
  {
    if IsLeaf(env, t) {
      LeafValid(env, t, inside, x, n, components, reading);
    } else if env[t].kind.Struct? {
      StructConforms(env, t, inside, x, h, n, components, reading);
    } else {
      CollectionConforms(env, t, inside, x, h, n, components, reading);
    }
  }

  lemma {:induction false} StructConforms(env: Types, t: TypeId, inside: set<TypeId>, x: Json, h: nat, n: nat,
      components: Components, reading: Reading)
    requires Finite(env) && DistinctProperties(env) && FinishedFor(env, components) && t < |env|
    requires env[t].kind.Struct? && !IsLeaf(env, t)
    requires Held(SchemaAlone(env, t, inside), components.Keys) && HeightAtMost(x, h) && n > h
    ensures ValidOpenApi(n, SchemaAlone(env, t, inside), x, components, reading)
      <==> Conforms(env, t, inside, x, reading.integral)
    decreases x, 2
  {
    var ty := env[t];
    if Hoisted(ty) {
      HoistedIsRef(env, t, inside);
      HoistedConforms(env, t, inside, x, h, n, components, reading);
    } else if Hoistable(ty) && t in inside {
      assert SchemaAlone(env, t, inside) == EMPTY;
      EmptyValid(n, x, components, reading);
    } else {
      InlineIsObject(env, t, inside);
      hide ValidOpenApi, FinishedFor, Held, DistinctProperties, SchemaAlone, IsObjectOf, HeightAtMost;
      ObjectConforms(env, ty.kind.fields, if Hoistable(ty) then inside + {t} else inside, SchemaAlone(env, t, inside),
        x, h, n, components, reading);
    }
  }

  lemma {:induction false} HoistedConforms(env: Types, t: TypeId, inside: set<TypeId>, x: Json, h: nat, n: nat,
      components: Components, reading: Reading)
    requires Finite(env) && DistinctProperties(env) && FinishedFor(env, components) && t < |env|
    requires env[t].kind.Struct? && !IsLeaf(env, t) && Hoisted(env[t])
    requires Held(RefTo(env[t].qualified), components.Keys) && HeightAtMost(x, h) && n > h
    ensures ValidOpenApi(n, RefTo(env[t].qualified), x, components, reading)
      <==> Conforms(env, t, inside, x, reading.integral)
    decreases x, 1
  {
    hide *;
    var key := env[t].qualified;
    HoistedBody(env, t, components);
    HoistedShape(env, t, inside, x, reading.integral);
    RefValid(n, RefTo(key), key, x, components, reading);
    ObjectConforms(env, env[t].kind.fields, {}, components[key], x, h, n - 1, components, reading);
  }

  /** A hoisted struct's component. */
  lemma HoistedBody(env: Types, t: TypeId, components: Components)
    requires Finite(env) && t < |env| && env[t].kind.Struct? && !IsLeaf(env, t) && Hoisted(env[t])
    requires FinishedFor(env, components) && Held(RefTo(env[t].qualified), components.Keys)
    ensures forall f | f in env[t].kind.fields :: f.typ < |env|
    ensures var key := env[t].qualified;
      && IsRef(RefTo(key)) && RefTarget(RefTo(key).members["$ref"]) == Some(key) && key in components
      && Held(components[key], components.Keys) && IsObjectOf(env, env[t].kind.fields, {}, components[key])
  {
    var key := env[t].qualified;
    HeldRef(key, {key});
    assert RefTarget(RefTo(key).members["$ref"]) == Some(key) && key in Refs(RefTo(key));
    assert Plain(env[t]) && FieldsOfType(env, t) == env[t].kind.fields;
    hide IsObjectOf, Emitted, IsBody;
  }

  lemma HoistedShape(env: Types, t: TypeId, inside: set<TypeId>, x: Json, integral: Integers)
    requires Finite(env) && t < |env| && env[t].kind.Struct? && !IsLeaf(env, t) && Hoisted(env[t])
    ensures forall f | f in env[t].kind.fields :: f.typ < |env|
    ensures Conforms(env, t, inside, x, integral) <==> x.Obj? && FieldsConform(env, env[t].kind.fields, {}, x, integral)
  {
    hide FieldsConform;
  }

  lemma {:induction false} CollectionConforms(env: Types, t: TypeId, inside: set<TypeId>, x: Json, h: nat, n: nat,
      components: Components, reading: Reading)
    requires Finite(env) && DistinctProperties(env) && FinishedFor(env, components) && t < |env|
    requires !env[t].kind.Struct? && !IsLeaf(env, t)
    requires Held(SchemaAlone(env, t, inside), components.Keys) && HeightAtMost(x, h) && n > h
    ensures ValidOpenApi(n, SchemaAlone(env, t, inside), x, components, reading)
      <==> Conforms(env, t, inside, x, reading.integral)
    decreases x, 2 * t + 2
  {
    var e, inner := ElementOf(env, t), SchemaAlone(env, ElementOf(env, t), inside);
    CollectionFacts(env, t, inside, x, components.Keys, reading.integral);
    hide *;
    if env[t].kind.Pointer? {
      SchemaConforms(env, e, inside, x, h, n, components, reading);
      PointToValid(env[e], inner, n, x, components, reading);
    } else if env[t].kind.MapOf? {
      if x.Obj? {
        forall p | p in x.members
          ensures ValidOpenApi(n, inner, x.members[p], components, reading)
            <==> Conforms(env, e, inside, x.members[p], reading.integral)
        {
          MemberHeight(x, p, h);
          SchemaConforms(env, e, inside, x.members[p], h - 1, n, components, reading);
        }
      }
      MapValid(inner, n, x, components, reading);
    } else {
      if x.Arr? {
        forall i | 0 <= i < |x.items|
          ensures ValidOpenApi(n, inner, x.items[i], components, reading)
            <==> Conforms(env, e, inside, x.items[i], reading.integral)
        {
          ItemHeight(x, i, h);
          SchemaConforms(env, e, inside, x.items[i], h - 1, n, components, reading);
        }
      }
      ArrayValid(inner, n, x, components, reading);
    }
  }

  lemma MemberHeight(x: Json, p: string, h: nat)
    requires x.Obj? && p in x.members && HeightAtMost(x, h)
    ensures h > 0 && HeightAtMost(x.members[p], h - 1)
  {
  }

  lemma ItemHeight(x: Json, i: nat, h: nat)
    requires x.Arr? && i < |x.items| && HeightAtMost(x, h)
    ensures h > 0 && HeightAtMost(x.items[i], h - 1)
  {
  }

  /** A pointer's or a collection's schema and values, from its element's. */
  lemma CollectionFacts(env: Types, t: TypeId, inside: set<TypeId>, x: Json, keys: set<string>, integral: Integers)
    requires Finite(env) && t < |env| && !env[t].kind.Struct? && !IsLeaf(env, t)
    requires Held(SchemaAlone(env, t, inside), keys)
    ensures var e, k := ElementOf(env, t), env[t].kind;
      var inner := SchemaAlone(env, e, inside);
      && e < t && Emitted(inner) && Held(inner, keys)
      && (k.Pointer? || k.MapOf? || k.Slice? || k.Array?)
      && SchemaAlone(env, t, inside) == (
           if k.Pointer? then PointTo(env[e], inner)
           else if k.MapOf? then Obj(map["type" := Str("object"), "additionalProperties" := inner])
           else Obj(map["type" := Str("array"), "items" := inner]))
      && (Conforms(env, t, inside, x, integral) <==>
            if k.Pointer? then x.Null? || Conforms(env, e, inside, x, integral)
            else if k.MapOf? then
              x.Obj? && forall p | p in x.members :: Conforms(env, e, inside, x.members[p], integral)
            else x.Arr? && forall i | 0 <= i < |x.items| :: Conforms(env, e, inside, x.items[i], integral))
  {
    AroundElement(env, t, inside);
    SchemaEmitted(env, ElementOf(env, t), inside);
    ElementHeld(env, t, SchemaAlone(env, ElementOf(env, t), inside), keys);
    ElementShape(env, t, inside, x, integral);
    hide Held, Emitted, SchemaAlone, Conforms, PointTo, Finite;
  }

  lemma SchemaEmitted(env: Types, t: TypeId, inside: set<TypeId>)
    requires Finite(env) && t < |env|
    ensures Emitted(SchemaAlone(env, t, inside))
  {
    SchemaKeeps(env, t, inside, NEW_BOOK);
  }

  /** The values of a pointer or a collection, from its element's. */
  lemma ElementShape(env: Types, t: TypeId, inside: set<TypeId>, x: Json, integral: Integers)
    requires Finite(env) && t < |env| && !env[t].kind.Struct? && !IsLeaf(env, t)
    ensures var e := ElementOf(env, t);
      Conforms(env, t, inside, x, integral) <==>
        if env[t].kind.Pointer? then x.Null? || Conforms(env, e, inside, x, integral)
        else if env[t].kind.MapOf? then
          x.Obj? && forall p | p in x.members :: Conforms(env, e, inside, x.members[p], integral)
        else x.Arr? && forall i | 0 <= i < |x.items| :: Conforms(env, e, inside, x.items[i], integral)
  {
    assert NeedsEarlier(env, t);
  }

  /** What a pointer's or a collection's schema refers to its element's does. */
  lemma ElementHeld(env: Types, t: TypeId, inner: Json, keys: set<string>)
    requires Finite(env) && t < |env| && !env[t].kind.Struct? && !IsLeaf(env, t)
    requires Emitted(inner) && Held(Around(env, t, inner), keys)
    ensures Held(inner, keys)
  {
    if env[t].kind.Pointer? {
      TargetHeld(env[ElementOf(env, t)], inner, keys);
    } else {
      var s := Around(env, t, inner);
      assert IsPlain(s);
      PartsHeld(s, keys);
      assert env[t].kind.MapOf? ==> s.members["additionalProperties"] == inner;
      assert !env[t].kind.MapOf? ==> s.members["items"] == inner;
    }
  }

  lemma TargetHeld(elem: GoType, inner: Json, keys: set<string>)
    requires Emitted(inner) && Held(PointTo(elem, inner), keys)
    ensures Held(inner, keys)
  {
    if inner == EMPTY {
    } else if "$ref" in inner.members || (Hoistable(elem) && !IsNullable(inner)) {
      WrapperHolds(inner, keys);
    } else if !IsNullable(inner) {
      var marked := Nullable(inner);
      forall r | r in Refs(inner) ensures r in keys {
        var k :| k in inner.members && r in KeywordRefs(k, inner.members[k]);
        assert k != "nullable";
        assert r in KeywordRefs(k, marked.members[k]);
        assert r in Refs(marked);
      }
    }
  }

  // ---------------------------------------------------------------- what encoding/json writes

  /** encoding/json may write x for a value of type t. Where nils holds, a nil slice or map, or a nil
      interface of a text-marshaling type, is written as null; where it does not, there is none - but
      below a struct met again inside itself, which is not described. */
  ghost predicate Writes(env: Types, t: TypeId, inside: set<TypeId>, x: Json, integral: Integers, nils: bool)
    requires Finite(env) && t < |env|
    decreases x, if nils then 0 else 1, t + 1
  {
    var ty := env[t];
    var k := ty.kind;
    if ty.time then x.Str?
    else if ty.rawMessage then true
    else if k.Pointer? then
      // a nil pointer, or what its marshaler or its target writes
      if ty.jsonMarshaler && !env[k.elem].time && !env[k.elem].jsonMarshaler then true
      else if ty.textMarshaler && !env[k.elem].textMarshaler then x.Null? || x.Str?
      else
        assert NeedsEarlier(env, t);
        x.Null? || Writes(env, k.elem, inside, x, integral, nils)
    else if ty.jsonMarshaler then true
    else if ty.textMarshaler then x.Str? || (nils && k.InterfaceKind? && x.Null?)
    else if k.StringKind? then x.Str?
    else if k.BoolKind? then x.Bool?
    else if k.Float32Kind? || k.Float64Kind? then x.Num?
    else if IntegerKind(k) then x.Num? && integral(x.literal)
    else if k.Slice? && IsByte(env[k.elem]) then x.Str? || (nils && x.Null?)
    else if k.Slice? || k.Array? then
      || (nils && k.Slice? && x.Null?)
      || (x.Arr? && forall i | 0 <= i < |x.items| :: Writes(env, k.elem, inside, x.items[i], integral, nils))
    else if k.MapOf? then
      && StringKeyed(env[k.key])
      && ((nils && x.Null?)
          || (x.Obj? && forall p | p in x.members :: Writes(env, k.elem, inside, x.members[p], integral, nils)))
    else if k.Struct? && Hoisted(ty) then x.Obj? && WritesFields(env, k.fields, {}, x, integral, nils)
    else if k.Struct? && Hoistable(ty) then
      if t in inside && !nils then Writes(env, t, inside, x, integral, true)
      else x.Obj? && WritesFields(env, k.fields, inside + {t}, x, integral, nils)
    else if k.Struct? then x.Obj? && WritesFields(env, k.fields, inside, x, integral, nils)
    else k.InterfaceKind?  // nothing is written for a type JSON cannot hold
  }

  /** Each property is written unless it may be omitted, and nothing else is. */
  ghost predicate WritesFields(env: Types, fields: seq<JsonField>, inside: set<TypeId>, x: Json, integral: Integers,
      nils: bool)
    requires Finite(env) && x.Obj? && forall f | f in fields :: f.typ < |env|
    decreases x, 0, 0
  {
    && (forall p | p in x.members :: IsNamed(fields, p))
    && (forall f | f in fields ::
          if f.name in x.members then WritesField(env, f, inside, x.members[f.name], integral, nils) else f.omittable)
  }

  /** With the ",string" option a scalar is written as a string; a marshaler of its own decides otherwise. */
  ghost predicate WritesField(env: Types, f: JsonField, inside: set<TypeId>, y: Json, integral: Integers, nils: bool)
    requires Finite(env) && f.typ < |env|
    decreases y, 2, 0
  {
    if f.quoted then
      y.Str? || (env[f.typ].kind.Pointer? && y.Null?) || (nils && env[f.typ].jsonMarshaler)
    else Writes(env, f.typ, inside, y, integral, nils)
  }

  /** A written value has the shape of its type exactly when no described null stands for a nil slice, map or
      text-marshaling interface, and no marshaler is asked for a quoted string and writes something else. */
  lemma {:induction false} WrittenConforms(env: Types, t: TypeId, inside: set<TypeId>, x: Json, integral: Integers)
    requires Finite(env) && t < |env| && Writes(env, t, inside, x, integral, true)
    ensures Conforms(env, t, inside, x, integral) <==> Writes(env, t, inside, x, integral, false)
    decreases x, t + 1
  {
    var ty := env[t];
    var k := ty.kind;
    if IsLeaf(env, t) {
    } else if k.Pointer? {
      assert NeedsEarlier(env, t);
      if !x.Null? {
        WrittenConforms(env, k.elem, inside, x, integral);
      }
    } else if k.Slice? || k.Array? {
      if x.Arr? {
        forall i | 0 <= i < |x.items|
          ensures Conforms(env, k.elem, inside, x.items[i], integral)
            <==> Writes(env, k.elem, inside, x.items[i], integral, false)
        {
          WrittenConforms(env, k.elem, inside, x.items[i], integral);
        }
      }
    } else if k.MapOf? {
      if x.Obj? {
        forall p | p in x.members
          ensures Conforms(env, k.elem, inside, x.members[p], integral)
            <==> Writes(env, k.elem, inside, x.members[p], integral, false)
        {
          WrittenConforms(env, k.elem, inside, x.members[p], integral);
        }
      }
    } else if Hoisted(ty) {
      WrittenFieldsConform(env, k.fields, {}, x, integral);
    } else if !(Hoistable(ty) && t in inside) {
      WrittenFieldsConform(env, k.fields, if Hoistable(ty) then inside + {t} else inside, x, integral);
    }
  }

  lemma {:induction false} WrittenFieldsConform(env: Types, fields: seq<JsonField>, inside: set<TypeId>, x: Json,
      integral: Integers)
    requires Finite(env) && x.Obj? && forall f | f in fields :: f.typ < |env|
    requires WritesFields(env, fields, inside, x, integral, true)
    ensures FieldsConform(env, fields, inside, x, integral) <==> WritesFields(env, fields, inside, x, integral, false)
    decreases x, 0
  {
    hide Conforms, Writes;
    forall f | f in fields && f.name in x.members
      ensures FieldConforms(env, f, inside, x.members[f.name], integral)
        <==> WritesField(env, f, inside, x.members[f.name], integral, false)
    {
      assert WritesField(env, f, inside, x.members[f.name], integral, true);
      if !f.quoted {
        WrittenConforms(env, f.typ, inside, x.members[f.name], integral);
      }
    }
  }

  // ---------------------------------------------------------------- scalars, formats and nil

  /** A scalar's schema admits the values of its JSON type, and no other. */
  lemma ScalarSchemasAdmitTheirType(env: Types, t: TypeId, visiting: set<TypeId>, x: Json, n: nat,
      components: Components, reading: Reading)
    requires Finite(env) && t < |env| && (env[t].time || Plain(env[t]))
    ensures var k, valid := env[t].kind, ValidOpenApi(n, SchemaAlone(env, t, visiting), x, components, reading);
      && (env[t].time || k.StringKind? || (k.Slice? && IsByte(env[k.elem])) ==> (valid <==> x.Str?))
      && (!env[t].time && k.BoolKind? ==> (valid <==> x.Bool?))
      && (!env[t].time && (k.Float32Kind? || k.Float64Kind?) ==> (valid <==> x.Num?))
      && (!env[t].time && IntegerKind(k) ==> (valid <==> x.Num? && reading.integral(x.literal)))
  {
    hide ValidOpenApi, SchemaAlone;
    if IsLeaf(env, t) {
      LeafValid(env, t, visiting, x, n, components, reading);
    }
  }

  /** The least and the greatest value of an integer kind, where an int has 64 bits. */
  function Bounds(k: Kind): (r: (int, int))
    requires IntegerKind(k)
  {
    match k
    case Int8Kind => (-0x80, 0x7f)
    case Int16Kind => (-0x8000, 0x7fff)
    case Int32Kind => (-0x8000_0000, 0x7fff_ffff)
    case IntKind | Int64Kind => (-0x8000_0000_0000_0000, 0x7fff_ffff_ffff_ffff)
    case Uint8Kind => (0, 0xff)
    case Uint16Kind => (0, 0xffff)
    case Uint32Kind => (0, 0xffff_ffff)
    case _ => (0, 0xffff_ffff_ffff_ffff)
  }

  /** An integer's format is the narrowest signed one that holds every value of its kind, if any does. */
  lemma IntegerFormatIsNarrowest(env: Types, t: TypeId, visiting: set<TypeId>)
    requires Finite(env) && t < |env| && Plain(env[t]) && IntegerKind(env[t].kind)
    ensures var m, (least, greatest) := SchemaAlone(env, t, visiting).members, Bounds(env[t].kind);
      && m.Keys <= {"type", "format"}
      && ("format" in m && m["format"] == Str("int32") <==> -0x8000_0000 <= least && greatest <= 0x7fff_ffff)
      && ("format" in m && m["format"] == Str("int64") <==>
            && !(-0x8000_0000 <= least && greatest <= 0x7fff_ffff)
            && -0x8000_0000_0000_0000 <= least && greatest <= 0x7fff_ffff_ffff_ffff)
      && ("format" in m <==> -0x8000_0000_0000_0000 <= least && greatest <= 0x7fff_ffff_ffff_ffff)
  {
    assert IsLeaf(env, t);
    var s := LeafSchema(env, t);
    assert SchemaAlone(env, t, visiting) == s;
    hide SchemaAlone, SchemaOf, Finite;
  }

  /** The formats of the other types written by their kind: a reader is told what the JSON type leaves out. */
  lemma OtherFormats(env: Types, t: TypeId, visiting: set<TypeId>)
    requires Finite(env) && t < |env|
    ensures var k, m := env[t].kind, SchemaAlone(env, t, visiting).members;
      var format := if "format" in m then m["format"] else Null;
      && (env[t].time ==> format == Str("date-time"))
      && (Plain(env[t]) && k.Slice? && IsByte(env[k.elem]) ==> format == Str("byte"))
      && (Plain(env[t]) && k.Float32Kind? ==> format == Str("float"))
      && (Plain(env[t]) && k.Float64Kind? ==> format == Str("double"))
      && (Plain(env[t]) && (k.StringKind? || k.BoolKind?) ==> format == Null)
  {
    if IsLeaf(env, t) {
      assert SchemaAlone(env, t, visiting) == LeafSchema(env, t);
    }
    hide SchemaAlone, SchemaOf, Finite;
  }

  /** encoding/json writes a nil slice or map as null, which their schemas refuse. */
  lemma NilIsRefused(env: Types, t: TypeId, visiting: set<TypeId>, n: nat, components: Components, reading: Reading)
    requires Finite(env) && t < |env| && !IsLeaf(env, t) && (env[t].kind.Slice? || env[t].kind.MapOf?)
    ensures Writes(env, t, visiting, Null, reading.integral, true)
    ensures !ValidOpenApi(n, SchemaAlone(env, t, visiting), Null, components, reading)
  {
    var e := ElementOf(env, t);
    AroundElement(env, t, visiting);
    SchemaEmitted(env, e, visiting);
    hide ValidOpenApi, SchemaAlone, Emitted;
    if env[t].kind.Slice? {
      ArrayValid(SchemaAlone(env, e, visiting), n, Null, components, reading);
    } else {
      MapValid(SchemaAlone(env, e, visiting), n, Null, components, reading);
    }
  }
}
