/** Hoisting and the hash: deriving named structs as components, or in place, gives a type the same normal form,
    cycles included, exactly when no chain of types leaves a struct that is written in place, enters a component
    and comes back. */
module Inlining {
  import opened JsonTrees
  import opened Options
  import opened Sorting
  import opened GoTypes
  import opened SchemaDeriver
  import opened DeriverLaws
  import opened DeriverReach
  import opened StructProperties
  import opened SchemaForms
  import opened SchemaShapes
  import opened Marshaling
  import opened Hash
  import opened HashHoisting
  import opened JsonSchemaTranslation

  /** The table of the same types when none has a component name. */
  function Inlined(env: Types): (inlined: Types)
    ensures |inlined| == |env|
  {
    seq(|env|, i requires 0 <= i < |env| => env[i].(component := ""))
  }

  /** The keys of the hoisted structs among some types. */
  ghost function KeysOf(env: Types, ts: set<TypeId>): set<string> {
    set t | t in ts && t < |env| && Hoisted(env[t]) :: env[t].qualified
  }

  lemma InlinedTable(env: Types)
    requires Finite(env) && DistinctProperties(env)
    ensures Finite(Inlined(env)) && DistinctProperties(Inlined(env))
    ensures forall t: TypeId | t < |env| :: IsLeaf(Inlined(env), t) == IsLeaf(env, t) && !Hoisted(Inlined(env)[t])
    ensures forall t: TypeId | t < |env| :: Hoistable(Inlined(env)[t]) == Hoistable(env[t])
  {
    var inlined := Inlined(env);
    assert InRange(inlined);
    forall t: TypeId | t < |env| ensures IsLeaf(inlined, t) == IsLeaf(env, t) {}
    forall t: TypeId | t < |env| && !IsLeaf(inlined, t) ensures NeedsEarlier(inlined, t) {
      assert NeedsEarlier(env, t);
    }
  }

  // ---------------------------------------------------------------- normal forms by type

  /** The normal form of a type's schema, within the structs of inside written in place, below the path. */
  function FormOf(env: Types, t: TypeId, inside: set<TypeId>, schemas: Components, path: set<string>): Json
    requires Finite(env) && t < |env|
  {
    Normalize(SchemaAlone(env, t, inside), schemas, path).out
  }

  /** A scalar's schema reads alike wherever it stands. */
  lemma ScalarForm(s: Json, schemas: Components, path: set<string>)
    requires s.Obj? && s.members.Keys <= {"type", "format", "nullable"}
    ensures Normalize(s, schemas, path) == Normalize(s, map[], {})
  {
    hide Normalize, IsKept;
    assert "$ref" !in s.members && "allOf" !in s.members;
    SameMembersSameForm(s, schemas, path, s, map[], {});
  }

  lemma LeafIsScalar(env: Types, t: TypeId, inside: set<TypeId>)
    requires Finite(env) && t < |env| && IsLeaf(env, t)
    ensures SchemaAlone(env, t, inside) == LeafSchema(env, t)
    ensures LeafSchema(env, t).members.Keys <= {"type", "format", "nullable"}
  {
    assert SchemaAlone(env, t, inside) == LeafSchema(env, t);
    hide SchemaAlone, SchemaOf, Finite;
  }

  lemma SameLeaf(env: Types, t: TypeId)
    requires Finite(env) && Finite(Inlined(env)) && t < |env| && IsLeaf(env, t) && IsLeaf(Inlined(env), t)
    ensures LeafSchema(Inlined(env), t) == LeafSchema(env, t)
  {
  }

  lemma LeafForm(env: Types, t: TypeId, inside: set<TypeId>, within: set<TypeId>, schemas: Components,
      path: set<string>)
    requires Finite(env) && DistinctProperties(env) && t < |env| && IsLeaf(env, t)
    ensures Finite(Inlined(env))
    ensures FormOf(env, t, inside, schemas, path) == FormOf(Inlined(env), t, within, map[], {})
  {
    InlinedTable(env);
    LeafIsScalar(env, t, inside);
    LeafIsScalar(Inlined(env), t, within);
    SameLeaf(env, t);
    hide SchemaAlone, LeafSchema, Normalize, Finite;
    ScalarForm(LeafSchema(env, t), schemas, path);
  }

  lemma NotCut(s: Json, schemas: Components, path: set<string>)
    requires !IsRef(s)
    ensures !Normalize(s, schemas, path).cut
  {
  }

  lemma EmptyForm(schemas: Components, path: set<string>)
    ensures Normalize(EMPTY, schemas, path) == Normal(EMPTY, false)
  {
    PlainNormal(EMPTY, schemas, path);
    assert FormMembers(EMPTY, schemas, path) == map[];
  }

  /** What a type's schema looks like: a pointer's is empty or nullable, no other is nullable, and only a named
      struct's is a reference. */
  ghost predicate Shaped(t: GoType, s: Json) {
    && Emitted(s) && (IsRef(s) ==> Hoistable(t))
    && (if Points(t) then s == EMPTY || IsNullable(s) else !IsNullable(s))
  }

  predicate Points(t: GoType) { t.kind.Pointer? && !t.time }

  lemma SchemaIsShaped(env: Types, t: TypeId, inside: set<TypeId>)
    requires Finite(env) && DistinctProperties(env) && t < |env|
    ensures Shaped(env[t], SchemaAlone(env, t, inside))
  {
    SchemaEmitted(env, t, inside);
    if IsLeaf(env, t) {
      LeafIsShaped(env, t, inside);
    } else if !env[t].kind.Struct? {
      AroundElement(env, t, inside);
      AroundIsShaped(env, t, SchemaAlone(env, ElementOf(env, t), inside));
    } else if Hoisted(env[t]) {
      HoistedIsRef(env, t, inside);
      assert RefTo(env[t].qualified).members.Keys == {"$ref"};
    } else if Hoistable(env[t]) && t in inside {
      assert SchemaAlone(env, t, inside) == EMPTY;
    } else {
      InlineIsObject(env, t, inside);
      ObjectIsShaped(env, env[t].kind.fields, if Hoistable(env[t]) then inside + {t} else inside,
        SchemaAlone(env, t, inside));
    }
  }

  lemma LeafIsShaped(env: Types, t: TypeId, inside: set<TypeId>)
    requires Finite(env) && t < |env| && IsLeaf(env, t)
    ensures var s := SchemaAlone(env, t, inside);
      !IsRef(s) && if Points(env[t]) then s == EMPTY || IsNullable(s) else !IsNullable(s)
  {
    LeafIsScalar(env, t, inside);
    hide SchemaAlone;
  }

  lemma AroundIsShaped(env: Types, t: TypeId, s: Json)
    requires Finite(env) && t < |env| && !IsLeaf(env, t) && !env[t].kind.Struct? && s.Obj?
    ensures var w := Around(env, t, s);
      !IsRef(w) && if Points(env[t]) then w == EMPTY || IsNullable(w) else !IsNullable(w)
  {
  }

  lemma ObjectShows(ps: map<string, Json>, required: seq<string>)
    ensures var s := ObjectSchema(ps, required); s.Obj? && s != EMPTY && !IsRef(s) && !IsNullable(s)
  {
    var s := ObjectSchema(ps, required);
    assert "type" in s.members && s.members.Keys <= {"type", "properties", "required"};
    hide StableSort, Strs;
  }

  lemma ObjectIsShaped(env: Types, fields: seq<JsonField>, inside: set<TypeId>, s: Json)
    requires Finite(env) && (forall f | f in fields :: f.typ < |env|) && IsObjectOf(env, fields, inside, s)
    ensures s.Obj? && s != EMPTY && !IsRef(s) && !IsNullable(s)
  {
    hide FieldSchema, RequiredNames, IsNamed;
    var ps :|
      && s == ObjectSchema(ps, RequiredNames(fields)) && (forall k :: k in ps <==> IsNamed(fields, k))
      && (forall i | 0 <= i < |fields| ::
            fields[i].name in ps && ps[fields[i].name] == FieldSchema(env, fields[i], inside));
    ObjectShows(ps, RequiredNames(fields));
  }

  /** A schema of the deriver's that is no reference, not nullable and not empty: its form has a type, and no
      nullable mark. */
  lemma PlainForm(s: Json, schemas: Components, path: set<string>)
    requires Emitted(s) && !IsRef(s) && !IsNullable(s) && s != EMPTY
    ensures var out := Normalize(s, schemas, path).out;
      "allOf" !in s.members && out.Obj? && "type" in out.members && "nullable" !in out.members && out != EMPTY
  {
    KeywordsAreKept();
    assert "allOf" !in s.members;
    PlainNormal(s, schemas, path);
    hide Keyword, Normalize;
  }

  // ---------------------------------------------------------------- pointers and collections

  /** The form of a pointer's or a collection's schema, from its element's. */
  function FormAround(env: Types, t: TypeId, n: Json): Json
    requires InRange(env) && t < |env| && !IsLeaf(env, t) && !env[t].kind.Struct? && n.Obj?
  {
    if env[t].kind.MapOf? then Obj(map["type" := Str("object"), "additionalProperties" := n])
    else if !env[t].kind.Pointer? then Obj(map["type" := Str("array"), "items" := n])
    else if n == EMPTY then n
    else if Hoistable(env[env[t].kind.elem]) then Wrapper(n)
    else if Points(env[env[t].kind.elem]) then n
    else Nullable(n)
  }

  /** What the element's form is, as far as that takes. */
  ghost predicate ElementForm(elem: GoType, n: Json) {
    n.Obj? && (n != EMPTY && !Points(elem) ==> "nullable" !in n.members)
  }

  lemma FormAroundInjective(env: Types, t: TypeId, n: Json, m: Json)
    requires InRange(env) && t < |env| && !IsLeaf(env, t) && !env[t].kind.Struct?
    requires ElementForm(env[ElementOf(env, t)], n) && ElementForm(env[ElementOf(env, t)], m)
    ensures FormAround(env, t, n) == FormAround(env, t, m) <==> n == m
  {
    if FormAround(env, t, n) == FormAround(env, t, m) {
      if env[t].kind.MapOf? {
        assert FormAround(env, t, n).members["additionalProperties"] == n;
        assert FormAround(env, t, m).members["additionalProperties"] == m;
      } else if !env[t].kind.Pointer? {
        assert FormAround(env, t, n).members["items"] == n && FormAround(env, t, m).members["items"] == m;
      } else {
        PointedInjective(env[env[t].kind.elem], n, m);
      }
    }
  }

  lemma PointedInjective(elem: GoType, n: Json, m: Json)
    requires ElementForm(elem, n) && ElementForm(elem, m)
    requires (if n == EMPTY then n else if Hoistable(elem) then Wrapper(n) else if Points(elem) then n else Nullable(n))
      == (if m == EMPTY then m else if Hoistable(elem) then Wrapper(m) else if Points(elem) then m else Nullable(m))
    ensures n == m
  {
    assert forall x :: "type" in Wrapper(x).members && Wrapper(x).members["allOf"].items[0] == x;
    assert n != EMPTY && !Hoistable(elem) && !Points(elem) ==> "nullable" in Nullable(n).members;
    assert m != EMPTY && !Hoistable(elem) && !Points(elem) ==> "nullable" in Nullable(m).members;
    if n != EMPTY && m != EMPTY && !Hoistable(elem) && !Points(elem) {
      assert n.members == Nullable(n).members - {"nullable"} && m.members == Nullable(m).members - {"nullable"};
    }
  }

  /** A reference to a component that is not being expanded has the form of an object. */
  lemma RefForm(key: string, schemas: Components, path: set<string>)
    requires ClosedBodies(schemas) && key in schemas
    ensures var n := Normalize(RefTo(key), schemas, path);
      if key in path then n == Normal(EMPTY, true)
      else n == Normal(Normalize(schemas[key], schemas, path + {key}).out, false) && n.out.Obj? && n.out != EMPTY
             && "nullable" !in n.out.members
  {
    HeldRef(key, {key});
    NormalizeRef(RefTo(key), key, schemas, path);
    assert "type" in schemas[key].members;
    PlainForm(schemas[key], schemas, path + {key});
  }

  /** What the induction needs of a table and its finished components. */
  ghost predicate Whole(env: Types, schemas: Components) {
    && Finite(env) && DistinctProperties(env) && DistinctKeys(env) && FinishedFor(env, schemas)
    && Finite(Inlined(env)) && DistinctProperties(Inlined(env))
  }

  /** The form of a type's schema is one an element may have. */
  lemma FormIsElements(env: Types, t: TypeId, inside: set<TypeId>, schemas: Components, path: set<string>)
    requires Finite(env) && DistinctProperties(env) && ClosedBodies(schemas) && t < |env|
    requires Held(SchemaAlone(env, t, inside), schemas.Keys)
    ensures ElementForm(env[t], FormOf(env, t, inside, schemas, path))
  {
    var s := SchemaAlone(env, t, inside);
    SchemaIsShaped(env, t, inside);
    hide SchemaAlone, Normalize, Finite, DistinctProperties, ClosedBodies;
    if IsRef(s) {
      HeldKey(s, schemas.Keys);
      RefForm(RefName(s), schemas, path);
    } else if s == EMPTY {
      EmptyForm(schemas, path);
    } else if !IsNullable(s) {
      PlainForm(s, schemas, path);
    } else {
      ObjectOut(s, schemas, path);
    }
  }

  lemma ObjectOut(s: Json, schemas: Components, path: set<string>)
    requires s.Obj? && !IsRef(s)
    ensures Normalize(s, schemas, path).out.Obj?
  {
  }

  lemma HeldKey(s: Json, keys: set<string>)
    requires Held(s, keys) && IsRef(s)
    ensures s == RefTo(RefName(s)) && RefName(s) in keys
  {
    assert RefName(s) in Refs(s) by { HeldRef(RefName(s), {RefName(s)}); }
  }

  /** Pointing to a type. */
  lemma PointedForm(elem: GoType, s: Json, schemas: Components, path: set<string>)
    requires Shaped(elem, s) && ClosedBodies(schemas) && Held(s, schemas.Keys)
    ensures Normalize(s, schemas, path).out.Obj?
    ensures var n := Normalize(s, schemas, path).out;
      Normalize(PointTo(elem, s), schemas, path).out ==
        if n == EMPTY then n else if Hoistable(elem) then Wrapper(n) else if Points(elem) then n else Nullable(n)
  {
    hide Normalize, ClosedBodies;
    if s == EMPTY {
      EmptyForm(schemas, path);
    } else if IsRef(s) {
      HeldKey(s, schemas.Keys);
      RefForm(RefName(s), schemas, path);
      WrapperNormal(s, schemas, path);
    } else if IsNullable(s) {
      ObjectOut(s, schemas, path);
    } else {
      PlainForm(s, schemas, path);
      NotCut(s, schemas, path);
      if Hoistable(elem) {
        WrapperNormal(s, schemas, path);
      } else {
        NullableForm(s, schemas, path);
      }
    }
  }

  lemma OneOf(s: Json, schemas: Components, path: set<string>, field: string, name: string)
    requires field in {"items", "additionalProperties"}
    ensures Normalize(Obj(map["type" := Str(name), field := s]), schemas, path).out
      == Obj(map["type" := Str(name), field := Normalize(s, schemas, path).out])
  {
    KeywordsAreKept();
    var v := Obj(map["type" := Str(name), field := s]);
    assert Keyword("type", Str(name), schemas, path) == Str(name);
    assert Keyword(field, s, schemas, path) == Normalize(s, schemas, path).out;
    hide Normalize, Keyword, IsAnnotation;
    PlainNormal(v, schemas, path);
    KeptTwo("type", Str(name), field, s, schemas, path);
  }

  lemma AroundForm(env: Types, t: TypeId, inside: set<TypeId>, schemas: Components, path: set<string>)
    requires Finite(env) && DistinctProperties(env) && ClosedBodies(schemas) && t < |env|
    requires !IsLeaf(env, t) && !env[t].kind.Struct? && Held(SchemaAlone(env, t, inside), schemas.Keys)
    ensures var e := ElementOf(env, t);
      && e < t && Held(SchemaAlone(env, e, inside), schemas.Keys)
      && FormOf(env, e, inside, schemas, path).Obj?
      && FormOf(env, t, inside, schemas, path) == FormAround(env, t, FormOf(env, e, inside, schemas, path))
  {
    var e := ElementOf(env, t);
    var s := SchemaAlone(env, e, inside);
    AroundElement(env, t, inside);
    SchemaIsShaped(env, e, inside);
    ElementHeld(env, t, s, schemas.Keys);
    FormIsElements(env, e, inside, schemas, path);
    hide SchemaAlone, Normalize, Finite, DistinctProperties, ClosedBodies, Held, Shaped;
    if env[t].kind.Pointer? {
      PointedForm(env[e], s, schemas, path);
    } else if env[t].kind.MapOf? {
      OneOf(s, schemas, path, "additionalProperties", "object");
    } else {
      OneOf(s, schemas, path, "items", "array");
    }
  }

  // ---------------------------------------------------------------- structs

  /** Objects with the same properties differ in what those are only. */
  lemma SameObjects(ps: map<string, Json>, qs: map<string, Json>, required: seq<string>)
    requires ps.Keys == qs.Keys
    ensures var m, n := ObjectSchema(ps, required).members, ObjectSchema(qs, required).members;
      && m.Keys == n.Keys <= {"type", "properties", "required"}
      && (forall k | k in m && k != "properties" :: n[k] == m[k])
      && ("properties" in m <==> ps != map[])
      && ("properties" in m ==>
            m["properties"] == Obj(ps) != EMPTY && n["properties"] == Obj(qs) != EMPTY)
  {
    assert ps == map[] <==> qs == map[];
    hide StableSort, Strs;
  }

  lemma FixedKeyword(k: string, v: Json, schemas: Components, path: set<string>)
    requires k in {"type", "required"}
    ensures Keyword(k, v, schemas, path) == Keyword(k, v, map[], {})
  {
  }

  ghost predicate SamePropertyForms(ps: map<string, Json>, schemas: Components, path: set<string>,
      qs: map<string, Json>)
    requires ps.Keys == qs.Keys
  {
    forall p | p in ps :: Normalize(ps[p], schemas, path).out == Normalize(qs[p], map[], {}).out
  }

  lemma PropertiesKeyword(ps: map<string, Json>, qs: map<string, Json>, schemas: Components, path: set<string>)
    requires ps.Keys == qs.Keys
    ensures Keyword("properties", Obj(ps), schemas, path) == Keyword("properties", Obj(qs), map[], {})
      <==> SamePropertyForms(ps, schemas, path, qs)
  {
    assert forall p :: p in ps <==> p in qs;
    var a := map p | p in ps :: Normalize(ps[p], schemas, path).out;
    var b := map p | p in qs :: Normalize(qs[p], map[], {}).out;
    assert Keyword("properties", Obj(ps), schemas, path) == Obj(a);
    assert Keyword("properties", Obj(qs), map[], {}) == Obj(b);
    hide Normalize, Keyword;
    if a == b {
      forall p | p in ps ensures Normalize(ps[p], schemas, path).out == Normalize(qs[p], map[], {}).out {
        assert a[p] == b[p];
      }
    }
    if SamePropertyForms(ps, schemas, path, qs) {
      assert a == b;
    }
  }

  lemma ObjectForms(ps: map<string, Json>, qs: map<string, Json>, required: seq<string>, schemas: Components,
      path: set<string>)
    requires ps.Keys == qs.Keys
    ensures Normalize(ObjectSchema(ps, required), schemas, path).out
        == Normalize(ObjectSchema(qs, required), map[], {}).out
      <==> SamePropertyForms(ps, schemas, path, qs)
  {
    var v, w := ObjectSchema(ps, required), ObjectSchema(qs, required);
    PropertiesKeyword(ps, qs, schemas, path);
    SameObjects(ps, qs, required);
    hide Normalize, ObjectSchema, Keyword, StableSort, IsAnnotation, SamePropertyForms;
    if SamePropertyForms(ps, schemas, path, qs) {
      forall k | k in v.members
        ensures IsKept(k, v.members[k]) == IsKept(k, w.members[k])
        ensures Keyword(k, v.members[k], schemas, path) == Keyword(k, w.members[k], map[], {})
      {
        if k != "properties" {
          FixedKeyword(k, v.members[k], schemas, path);
        }
      }
      SameMembersSameForm(v, schemas, path, w, map[], {});
    } else {
      KeywordsAreKept();
      PlainNormal(v, schemas, path);
      PlainNormal(w, map[], {});
      NoProperties(ps, schemas, path, qs);
      assert FormMembers(v, schemas, path)["properties"] != FormMembers(w, map[], {})["properties"];
    }
  }

  lemma NoProperties(ps: map<string, Json>, schemas: Components, path: set<string>, qs: map<string, Json>)
    requires ps.Keys == qs.Keys && !SamePropertyForms(ps, schemas, path, qs)
    ensures ps != map[]
  {
    hide Normalize;
  }

  /** The form of a struct's property. */
  function FieldForm(env: Types, f: JsonField, inside: set<TypeId>, schemas: Components, path: set<string>): Json
    requires Finite(env) && f.typ < |env|
  {
    Normalize(FieldSchema(env, f, inside), schemas, path).out
  }

  ghost predicate SameFieldForms(env: Types, fields: seq<JsonField>, inside: set<TypeId>, within: set<TypeId>,
      schemas: Components, path: set<string>)
    requires Finite(env) && Finite(Inlined(env)) && forall f | f in fields :: f.typ < |env|
  {
    forall f | f in fields ::
      FieldForm(env, f, inside, schemas, path) == FieldForm(Inlined(env), f, within, map[], {})
  }

  lemma StructForms(env: Types, fields: seq<JsonField>, inside: set<TypeId>, within: set<TypeId>, s: Json,
      schemas: Components, path: set<string>, r: Json)
    requires Finite(env) && Finite(Inlined(env)) && forall f | f in fields :: f.typ < |env|
    requires IsObjectOf(env, fields, inside, s) && IsObjectOf(Inlined(env), fields, within, r)
    ensures Normalize(s, schemas, path).out == Normalize(r, map[], {}).out
      <==> SameFieldForms(env, fields, inside, within, schemas, path)
  {
    hide FieldSchema, Normalize, RequiredNames, IsNamed, ObjectSchema, Finite;
    var ps :|
      && s == ObjectSchema(ps, RequiredNames(fields)) && (forall k :: k in ps <==> IsNamed(fields, k))
      && (forall i | 0 <= i < |fields| ::
            fields[i].name in ps && ps[fields[i].name] == FieldSchema(env, fields[i], inside));
    var qs :|
      && r == ObjectSchema(qs, RequiredNames(fields)) && (forall k :: k in qs <==> IsNamed(fields, k))
      && (forall i | 0 <= i < |fields| ::
            fields[i].name in qs && qs[fields[i].name] == FieldSchema(Inlined(env), fields[i], within));
    assert forall k :: k in ps <==> k in qs;
    ObjectForms(ps, qs, RequiredNames(fields), schemas, path);
    PropertiesAreFieldForms(env, fields, inside, within, schemas, path, ps, qs);
  }

  lemma PropertiesAreFieldForms(env: Types, fields: seq<JsonField>, inside: set<TypeId>, within: set<TypeId>,
      schemas: Components, path: set<string>, ps: map<string, Json>, qs: map<string, Json>)
    requires Finite(env) && Finite(Inlined(env)) && (forall f | f in fields :: f.typ < |env|) && ps.Keys == qs.Keys
    requires forall k :: k in ps <==> IsNamed(fields, k)
    requires forall i | 0 <= i < |fields| ::
      fields[i].name in ps && ps[fields[i].name] == FieldSchema(env, fields[i], inside)
    requires forall i | 0 <= i < |fields| ::
      fields[i].name in qs && qs[fields[i].name] == FieldSchema(Inlined(env), fields[i], within)
    ensures SamePropertyForms(ps, schemas, path, qs) <==> SameFieldForms(env, fields, inside, within, schemas, path)
  {
    hide FieldSchema, Normalize, IsNamed, Finite;
    if SamePropertyForms(ps, schemas, path, qs) {
      forall f | f in fields
        ensures FieldForm(env, f, inside, schemas, path) == FieldForm(Inlined(env), f, within, map[], {})
      {
        var i :| 0 <= i < |fields| && fields[i] == f;
        assert f.name in ps;
      }
    }
    if SameFieldForms(env, fields, inside, within, schemas, path) {
      forall p | p in ps ensures Normalize(ps[p], schemas, path).out == Normalize(qs[p], map[], {}).out {
        var i := NamedAt(fields, p);
        assert fields[i] in fields;
      }
    }
  }

  lemma NamedAt(fields: seq<JsonField>, name: string) returns (i: nat)
    requires IsNamed(fields, name)
    ensures i < |fields| && fields[i].name == name
  {
    i :| 0 <= i < |fields| && fields[i].name == name;
  }

  // ---------------------------------------------------------------- chains that come back

  /** The named structs entered so far, and those of them written in place since the last component. */
  ghost function Entered(env: Types, entered: set<TypeId>, t: TypeId): set<TypeId>
    requires t < |env|
  {
    if Hoistable(env[t]) then entered + {t} else entered
  }

  ghost function Kept(env: Types, inside: set<TypeId>, t: TypeId): set<TypeId>
    requires t < |env|
  {
    if !Hoistable(env[t]) then inside else if Hoisted(env[t]) then {} else inside + {t}
  }

  /** From these sets on, the chain enters new structs only until its last, which is one entered before: written in
      place, but lost sight of in a component. */
  ghost predicate Diverges(env: Types, w: seq<TypeId>, entered: set<TypeId>, inside: set<TypeId>)
    requires Finite(env)
  {
    && w != [] && w[0] < |env| && !IsLeaf(env, w[0])
    && if Hoistable(env[w[0]]) && w[0] in entered then |w| == 1 && !Hoisted(env[w[0]]) && w[0] !in inside
       else |w| > 1 && w[1] in Steps(env, w[0])
            && Diverges(env, w[1..], Entered(env, entered, w[0]), Kept(env, inside, w[0]))
  }

  ghost predicate Diverging(env: Types, t: TypeId, entered: set<TypeId>, inside: set<TypeId>)
    requires Finite(env)
  {
    exists w :: w != [] && w[0] == t && Diverges(env, w, entered, inside)
  }

  ghost predicate StepDiverges(env: Types, t: TypeId, entered: set<TypeId>, inside: set<TypeId>)
    requires Finite(env) && t < |env|
  {
    exists u :: u in Steps(env, t) && Diverging(env, u, Entered(env, entered, t), Kept(env, inside, t))
  }

  lemma DivergingStep(env: Types, t: TypeId, entered: set<TypeId>, inside: set<TypeId>)
    requires Finite(env) && t < |env| && !IsLeaf(env, t) && !(Hoistable(env[t]) && t in entered)
    ensures Diverging(env, t, entered, inside) <==> StepDiverges(env, t, entered, inside)
  {
    hide Steps, IsLeaf, NeedsEarlier;
    if Diverging(env, t, entered, inside) {
      var w :| w != [] && w[0] == t && Diverges(env, w, entered, inside);
      assert Diverging(env, w[1], Entered(env, entered, t), Kept(env, inside, t));
    }
    if StepDiverges(env, t, entered, inside) {
      var u :| u in Steps(env, t) && Diverging(env, u, Entered(env, entered, t), Kept(env, inside, t));
      var v :| v != [] && v[0] == u && Diverges(env, v, Entered(env, entered, t), Kept(env, inside, t));
      var w := [t] + v;
      assert w[1..] == v && w[1] == u;
      assert Diverges(env, w, entered, inside);
    }
  }

  lemma DivergingEnds(env: Types, t: TypeId, entered: set<TypeId>, inside: set<TypeId>)
    requires Finite(env) && t < |env|
    ensures IsLeaf(env, t) ==> !Diverging(env, t, entered, inside)
    ensures !IsLeaf(env, t) && Hoistable(env[t]) && t in entered ==>
      (Diverging(env, t, entered, inside) <==> !Hoisted(env[t]) && t !in inside)
  {
    if !IsLeaf(env, t) && Hoistable(env[t]) && t in entered && !Hoisted(env[t]) && t !in inside {
      assert Diverges(env, [t], entered, inside);
    }
  }

  // ---------------------------------------------------------------- the law, type by type

  /** Without component names no schema refers to any. */
  lemma InlinedHeld(env: Types, t: TypeId, within: set<TypeId>)
    requires Finite(env) && DistinctProperties(env) && t < |env|
    ensures Finite(Inlined(env)) && Held(SchemaAlone(Inlined(env), t, within), {})
  {
    InlinedTable(env);
    SchemaKeeps(Inlined(env), t, within, NEW_BOOK);
    var b := SchemaOf(Inlined(env), t, within, NEW_BOOK).1;
    hide SchemaOf, Held, BookOk, Finite;
    NoKeys(Inlined(env), b);
  }

  lemma NoKeys(env: Types, b: Book)
    requires BookOk(env, b) && forall t: TypeId | t < |env| :: !Hoisted(env[t])
    ensures b.schemas.Keys == {}
  {
    hide Held, IsBody;
    assert forall k :: k in b.schemas ==> k in b.types;
  }

  /** The forms of a type with structs hoisted as the table says, and with all in place, are one. */
  ghost predicate OneForm(env: Types, t: TypeId, entered: set<TypeId>, inside: set<TypeId>, schemas: Components)
    requires Finite(env) && Finite(Inlined(env)) && t < |env|
  {
    FormOf(env, t, inside, schemas, KeysOf(env, entered)) == FormOf(Inlined(env), t, entered, map[], {})
  }

  ghost predicate FormsAgree(env: Types, t: TypeId, entered: set<TypeId>, inside: set<TypeId>, schemas: Components)
    requires Finite(env) && Finite(Inlined(env)) && t < |env|
  {
    OneForm(env, t, entered, inside, schemas) <==> !Diverging(env, t, entered, inside)
  }

  /** A state the derivation may be in: structs entered, the last of them written in place. */
  ghost predicate MayEnter(env: Types, entered: set<TypeId>, inside: set<TypeId>) {
    inside <= entered <= NamedStructs(env)
  }

  lemma {:induction false} TypeForms(env: Types, t: TypeId, entered: set<TypeId>, inside: set<TypeId>,
      schemas: Components)
    requires Whole(env, schemas) && t < |env| && MayEnter(env, entered, inside)
    requires Held(SchemaAlone(env, t, inside), schemas.Keys)
    ensures FormsAgree(env, t, entered, inside, schemas)
    decreases NamedStructs(env) - entered, t, 2
  {
    hide Normalize, Held, SchemaAlone, DistinctProperties, DistinctKeys, FinishedFor, FormOf;
    DivergingEnds(env, t, entered, inside);
    if IsLeaf(env, t) {
      LeafForm(env, t, inside, entered, schemas, KeysOf(env, entered));
    } else if !env[t].kind.Struct? {
      CollectionForms(env, t, entered, inside, schemas);
    } else if !Hoistable(env[t]) {
      UnnamedForms(env, t, entered, inside, schemas);
    } else if t in entered {
      MetAgain(env, t, entered, inside, schemas);
    } else if Hoisted(env[t]) {
      HoistedForms(env, t, entered, inside, schemas);
    } else {
      InPlaceForms(env, t, entered, inside, schemas);
    }
  }

  lemma {:induction false} CollectionForms(env: Types, t: TypeId, entered: set<TypeId>, inside: set<TypeId>,
      schemas: Components)
    requires Whole(env, schemas) && t < |env| && MayEnter(env, entered, inside)
    requires !IsLeaf(env, t) && !env[t].kind.Struct? && Held(SchemaAlone(env, t, inside), schemas.Keys)
    ensures FormsAgree(env, t, entered, inside, schemas)
    decreases NamedStructs(env) - entered, t, 1
  {
    CollectionSteps(env, t, entered, inside, schemas);
    var e := ElementOf(env, t);
    hide *;
    TypeForms(env, e, entered, inside, schemas);
    ElementAgrees(env, t, e, entered, inside, schemas);
  }

  lemma ElementAgrees(env: Types, t: TypeId, e: TypeId, entered: set<TypeId>, inside: set<TypeId>, schemas: Components)
    requires Finite(env) && Finite(Inlined(env)) && t < |env| && e < |env|
    requires FormsAgree(env, e, entered, inside, schemas)
    requires OneForm(env, t, entered, inside, schemas) <==> OneForm(env, e, entered, inside, schemas)
    requires Diverging(env, t, entered, inside) <==> Diverging(env, e, entered, inside)
    ensures FormsAgree(env, t, entered, inside, schemas)
  {
    hide OneForm, Diverging, Finite;
  }

  /** A pointer or a collection agrees, and comes back, where its element does. */
  lemma CollectionSteps(env: Types, t: TypeId, entered: set<TypeId>, inside: set<TypeId>, schemas: Components)
    requires Whole(env, schemas) && t < |env| && MayEnter(env, entered, inside)
    requires !IsLeaf(env, t) && !env[t].kind.Struct? && Held(SchemaAlone(env, t, inside), schemas.Keys)
    ensures Finite(env) && Finite(Inlined(env))
    ensures var e := ElementOf(env, t);
      && e < t && Held(SchemaAlone(env, e, inside), schemas.Keys)
      && (OneForm(env, t, entered, inside, schemas) <==> OneForm(env, e, entered, inside, schemas))
      && (Diverging(env, t, entered, inside) <==> Diverging(env, e, entered, inside))
  {
    var e, path, none: Components := ElementOf(env, t), KeysOf(env, entered), map[];
    InlinedTable(env);
    ElementDiverges(env, t, entered, inside);
    assert ClosedBodies(none) && none.Keys == {};
    hide Normalize, Held, SchemaAlone, DistinctProperties, DistinctKeys, Diverging, ClosedBodies, FormOf, KeysOf,
      ElementForm, Finite;
    AroundForm(env, t, inside, schemas, path);
    InlinedHeld(env, t, entered);
    AroundForm(Inlined(env), t, entered, none, {});
    FormIsElements(env, e, inside, schemas, path);
    FormIsElements(Inlined(env), e, entered, none, {});
    InlinedElement(env, t, FormOf(env, e, inside, schemas, path), FormOf(Inlined(env), e, entered, none, {}));
  }

  lemma InlinedElement(env: Types, t: TypeId, n: Json, m: Json)
    requires Finite(env) && Finite(Inlined(env)) && t < |env| && !IsLeaf(env, t) && !IsLeaf(Inlined(env), t)
    requires !env[t].kind.Struct? && ElementForm(env[ElementOf(env, t)], n)
    requires ElementForm(Inlined(env)[ElementOf(env, t)], m)
    ensures FormAround(env, t, n) == FormAround(Inlined(env), t, m) <==> n == m
  {
    assert FormAround(Inlined(env), t, m) == FormAround(env, t, m);
    FormAroundInjective(env, t, n, m);
  }

  lemma ElementDiverges(env: Types, t: TypeId, entered: set<TypeId>, inside: set<TypeId>)
    requires Finite(env) && t < |env| && !IsLeaf(env, t) && !env[t].kind.Struct?
    ensures Diverging(env, t, entered, inside) <==> Diverging(env, ElementOf(env, t), entered, inside)
  {
    DivergingStep(env, t, entered, inside);
    assert Steps(env, t) == {ElementOf(env, t)};
    hide Diverging;
  }

  /** A struct entered before: cut in place, and cut as a component; written out where it was lost sight of. */
  lemma MetAgain(env: Types, t: TypeId, entered: set<TypeId>, inside: set<TypeId>, schemas: Components)
    requires Whole(env, schemas) && t < |env| && MayEnter(env, entered, inside)
    requires !IsLeaf(env, t) && Hoistable(env[t]) && t in entered && Held(SchemaAlone(env, t, inside), schemas.Keys)
    ensures FormsAgree(env, t, entered, inside, schemas)
  {
    InlinedTable(env);
    DivergingEnds(env, t, entered, inside);
    assert SchemaAlone(Inlined(env), t, entered) == EMPTY;
    EmptyForm(map[], {});
    EmptyForm(schemas, KeysOf(env, entered));
    if Hoisted(env[t]) {
      HoistedIsRef(env, t, inside);
      HeldKey(RefTo(env[t].qualified), schemas.Keys);
      RefNameOf(env[t].qualified);
      RefForm(env[t].qualified, schemas, KeysOf(env, entered));
    } else if t in inside {
      assert SchemaAlone(env, t, inside) == EMPTY;
    } else {
      InlineIsObject(env, t, inside);
      SchemaIsShaped(env, t, inside);
      ObjectIsShaped(env, env[t].kind.fields, inside + {t}, SchemaAlone(env, t, inside));
      PlainForm(SchemaAlone(env, t, inside), schemas, KeysOf(env, entered));
    }
  }

  lemma RefNameOf(key: string)
    ensures IsRef(RefTo(key)) && RefName(RefTo(key)) == key
  {
    HeldRef(key, {key});
    assert RefTarget(RefTo(key).members["$ref"]) == Some(key) by {
      assert (REF_PREFIX + key)[|REF_PREFIX|..] == key;
    }
  }

  lemma KeyEntered(env: Types, t: TypeId, entered: set<TypeId>)
    requires DistinctKeys(env) && t < |env| && entered <= NamedStructs(env) && Hoistable(env[t])
    ensures Hoisted(env[t]) ==> (env[t].qualified in KeysOf(env, entered) <==> t in entered)
    ensures KeysOf(env, entered + {t})
      == KeysOf(env, entered) + if Hoisted(env[t]) then {env[t].qualified} else {}
  {
  }

  /** A struct's fields, once it is entered. */
  ghost predicate FieldsAgree(env: Types, fields: seq<JsonField>, entered: set<TypeId>, inside: set<TypeId>,
      schemas: Components)
    requires Finite(env) && Finite(Inlined(env)) && forall f | f in fields :: f.typ < |env|
  {
    forall f | f in fields ::
      (FieldForm(env, f, inside, schemas, KeysOf(env, entered)) == FieldForm(Inlined(env), f, entered, map[], {}))
      <==> f.quoted || !Diverging(env, f.typ, entered, inside)
  }

  lemma {:induction false} FieldsForms(env: Types, fields: seq<JsonField>, bound: nat, entered: set<TypeId>,
      inside: set<TypeId>, schemas: Components, s: Json)
    requires Whole(env, schemas) && MayEnter(env, entered, inside) && bound <= |env|
    requires (forall f | f in fields :: f.typ < |env| && Fits(env, f, bound)) && IsObjectOf(env, fields, inside, s)
    requires Held(s, schemas.Keys)
    ensures FieldsAgree(env, fields, entered, inside, schemas)
    decreases NamedStructs(env) - entered, bound, 0
  {
    hide Normalize, IsObjectOf, Held, KeysOf, SchemaAlone, DistinctProperties, DistinctKeys, FinishedFor, Diverging;
    forall f | f in fields
      ensures FieldForm(env, f, inside, schemas, KeysOf(env, entered)) == FieldForm(Inlined(env), f, entered, map[], {})
        <==> f.quoted || !Diverging(env, f.typ, entered, inside)
    {
      FieldHeld(env, fields, f, inside, s, schemas.Keys);
      if f.quoted {
        ScalarForm(QuotedSchema(env[f.typ]), schemas, KeysOf(env, entered));
        assert QuotedSchema(Inlined(env)[f.typ]) == QuotedSchema(env[f.typ]);
      } else {
        TypeForms(env, f.typ, entered, inside, schemas);
      }
    }
  }

  lemma FieldHeld(env: Types, fields: seq<JsonField>, f: JsonField, inside: set<TypeId>, s: Json, keys: set<string>)
    requires Finite(env) && (forall g | g in fields :: g.typ < |env|) && f in fields
    requires IsObjectOf(env, fields, inside, s) && Held(s, keys)
    ensures Held(FieldSchema(env, f, inside), keys)
  {
    hide Held, FieldSchema, RequiredNames, ObjectSchema;
    var ps :|
      && s == ObjectSchema(ps, RequiredNames(fields)) && (forall k :: k in ps <==> IsNamed(fields, k))
      && (forall i | 0 <= i < |fields| ::
            fields[i].name in ps && ps[fields[i].name] == FieldSchema(env, fields[i], inside));
    ObjectPartsHeld(ps, RequiredNames(fields), keys);
    var i :| 0 <= i < |fields| && fields[i] == f;
  }

  /** A struct's chains come back by one of its fields. */
  lemma FieldsDiverge(env: Types, t: TypeId, entered: set<TypeId>, inside: set<TypeId>)
    requires Finite(env) && t < |env| && env[t].kind.Struct? && !IsLeaf(env, t) && !(Hoistable(env[t]) && t in entered)
    requires forall f | f in env[t].kind.fields :: f.typ < |env|
    ensures Diverging(env, t, entered, inside) <==> exists f ::
      f in env[t].kind.fields && !f.quoted && Diverging(env, f.typ, Entered(env, entered, t), Kept(env, inside, t))
  {
    DivergingStep(env, t, entered, inside);
    var steps := Steps(env, t);
    assert steps == set f | f in env[t].kind.fields && !f.quoted :: f.typ;
    hide Diverging, Steps, Entered, Kept, IsLeaf, NeedsEarlier;
  }

  /** A struct that is entered: its forms are one exactly when its fields' are. */
  lemma EnteredAgree(env: Types, t: TypeId, entered: set<TypeId>, inside: set<TypeId>, schemas: Components,
      s: Json, path: set<string>)
    requires Finite(env) && Finite(Inlined(env)) && t < |env| && env[t].kind.Struct? && !IsLeaf(env, t)
    requires !(Hoistable(env[t]) && t in entered) && path == KeysOf(env, Entered(env, entered, t))
    requires forall f | f in env[t].kind.fields :: f.typ < |env|
    requires IsObjectOf(env, env[t].kind.fields, Kept(env, inside, t), s)
    requires IsObjectOf(Inlined(env), env[t].kind.fields, Entered(env, entered, t),
                        SchemaAlone(Inlined(env), t, entered))
    requires FieldsAgree(env, env[t].kind.fields, Entered(env, entered, t), Kept(env, inside, t), schemas)
    ensures Normalize(s, schemas, path).out == FormOf(Inlined(env), t, entered, map[], {})
      <==> !Diverging(env, t, entered, inside)
  {
    FieldsDiverge(env, t, entered, inside);
    hide Normalize, IsObjectOf, SchemaAlone, Diverging, KeysOf, FieldForm, Steps, IsLeaf, Finite, Entered, Kept;
    StructForms(env, env[t].kind.fields, Kept(env, inside, t), Entered(env, entered, t), s, schemas, path,
      SchemaAlone(Inlined(env), t, entered));
  }

  lemma {:induction false} UnnamedForms(env: Types, t: TypeId, entered: set<TypeId>, inside: set<TypeId>,
      schemas: Components)
    requires Whole(env, schemas) && t < |env| && MayEnter(env, entered, inside)
    requires !IsLeaf(env, t) && env[t].kind.Struct? && !Hoistable(env[t])
    requires Held(SchemaAlone(env, t, inside), schemas.Keys)
    ensures FormsAgree(env, t, entered, inside, schemas)
    decreases NamedStructs(env) - entered, t, 1
  {
    InlinedTable(env);
    assert NeedsEarlier(env, t);
    InlineIsObject(env, t, inside);
    InlineIsObject(Inlined(env), t, entered);
    hide Normalize, IsObjectOf, Held, SchemaAlone, Diverging, FinishedFor, DistinctProperties, DistinctKeys, KeysOf;
    var s := SchemaAlone(env, t, inside);
    FieldsForms(env, env[t].kind.fields, t, entered, inside, schemas, s);
    EnteredAgree(env, t, entered, inside, schemas, s, KeysOf(env, entered));
  }

  /** A hoisted struct entered for the first time: its component, and what it is in place. */
  lemma HoistedCase(env: Types, t: TypeId, entered: set<TypeId>, inside: set<TypeId>, schemas: Components)
    requires Whole(env, schemas) && t < |env| && MayEnter(env, entered, inside)
    requires !IsLeaf(env, t) && Hoisted(env[t]) && t !in entered && Held(SchemaAlone(env, t, inside), schemas.Keys)
    ensures Finite(env) && Finite(Inlined(env)) && env[t].kind.Struct?
    ensures forall f | f in env[t].kind.fields :: f.typ < |env| && Fits(env, f, |env|)
    ensures var key, fields := env[t].qualified, env[t].kind.fields;
      && SchemaAlone(env, t, inside) == RefTo(key) && IsRef(RefTo(key))
      && RefTarget(RefTo(key).members["$ref"]) == Some(key) && key in schemas && Held(schemas[key], schemas.Keys)
      && IsObjectOf(env, fields, {}, schemas[key])
      && IsObjectOf(Inlined(env), fields, entered + {t}, SchemaAlone(Inlined(env), t, entered))
  {
    InlinedTable(env);
    HoistedIsRef(env, t, inside);
    hide Normalize, IsObjectOf, Held, FinishedFor, KeysOf, NamedStructs, SchemaAlone, DistinctProperties, DistinctKeys;
    HoistedBody(env, t, schemas);
    InlineIsObject(Inlined(env), t, entered);
  }

  /** What is entered with it. */
  lemma EnteringHoisted(env: Types, t: TypeId, entered: set<TypeId>, inside: set<TypeId>)
    requires DistinctKeys(env) && t < |env| && MayEnter(env, entered, inside) && Hoisted(env[t]) && t !in entered
    ensures MayEnter(env, entered + {t}, {}) && NamedStructs(env) - (entered + {t}) < NamedStructs(env) - entered
    ensures Entered(env, entered, t) == entered + {t} && Kept(env, inside, t) == {}
    ensures env[t].qualified !in KeysOf(env, entered)
    ensures KeysOf(env, entered + {t}) == KeysOf(env, entered) + {env[t].qualified}
  {
    KeyEntered(env, t, entered);
    assert t in NamedStructs(env) - entered;
    hide DistinctKeys, KeysOf;
  }

  lemma {:induction false} HoistedForms(env: Types, t: TypeId, entered: set<TypeId>, inside: set<TypeId>,
      schemas: Components)
    requires Whole(env, schemas) && t < |env| && MayEnter(env, entered, inside)
    requires !IsLeaf(env, t) && Hoisted(env[t]) && t !in entered && Held(SchemaAlone(env, t, inside), schemas.Keys)
    ensures FormsAgree(env, t, entered, inside, schemas)
    decreases NamedStructs(env) - entered, t, 1
  {
    var key, path, fields := env[t].qualified, KeysOf(env, entered), env[t].kind.fields;
    HoistedCase(env, t, entered, inside, schemas);
    EnteringHoisted(env, t, entered, inside);
    hide *;
    FieldsForms(env, fields, |env|, entered + {t}, {}, schemas, schemas[key]);
    EnteredAgree(env, t, entered, inside, schemas, schemas[key], path + {key});
    HoistedAgree(env, t, entered, inside, schemas);
  }

  lemma HoistedAgree(env: Types, t: TypeId, entered: set<TypeId>, inside: set<TypeId>, schemas: Components)
    requires Finite(env) && Finite(Inlined(env)) && t < |env|
    requires var key, path := env[t].qualified, KeysOf(env, entered);
      && SchemaAlone(env, t, inside) == RefTo(key) && IsRef(RefTo(key))
      && RefTarget(RefTo(key).members["$ref"]) == Some(key) && key in schemas && key !in path
      && (Normalize(schemas[key], schemas, path + {key}).out == FormOf(Inlined(env), t, entered, map[], {})
          <==> !Diverging(env, t, entered, inside))
    ensures FormsAgree(env, t, entered, inside, schemas)
  {
    hide Normalize, SchemaAlone, Diverging, KeysOf, Finite;
    NormalizeRef(RefTo(env[t].qualified), env[t].qualified, schemas, KeysOf(env, entered));
  }

  lemma {:induction false} InPlaceForms(env: Types, t: TypeId, entered: set<TypeId>, inside: set<TypeId>,
      schemas: Components)
    requires Whole(env, schemas) && t < |env| && MayEnter(env, entered, inside)
    requires !IsLeaf(env, t) && Hoistable(env[t]) && !Hoisted(env[t]) && t !in entered
    requires Held(SchemaAlone(env, t, inside), schemas.Keys)
    ensures FormsAgree(env, t, entered, inside, schemas)
    decreases NamedStructs(env) - entered, t, 1
  {
    var fields, s := env[t].kind.fields, SchemaAlone(env, t, inside);
    InlinedTable(env);
    InlineIsObject(env, t, inside);
    InlineIsObject(Inlined(env), t, entered);
    KeyEntered(env, t, entered);
    hide Normalize, IsObjectOf, Held, SchemaAlone, Diverging, FinishedFor, DistinctProperties, DistinctKeys, KeysOf;
    FieldsForms(env, fields, |env|, entered + {t}, inside + {t}, schemas, s);
    EnteredAgree(env, t, entered, inside, schemas, s, KeysOf(env, entered));
  }

  // ---------------------------------------------------------------- which chains these are

  /** A named struct without a component name. */
  predicate InPlace(t: GoType) { Hoistable(t) && !Hoisted(t) }

  /** v stands in p, with a component after it. */
  ghost predicate LostIn(env: Types, p: seq<TypeId>, v: TypeId)
    requires forall i | 0 <= i < |p| :: p[i] < |env|
  {
    exists i, j :: 0 <= i < j < |p| && p[i] == v && Hoisted(env[p[j]])
  }

  /** No named struct stands in p twice. */
  ghost predicate EntersOnce(env: Types, p: seq<TypeId>)
    requires forall i | 0 <= i < |p| :: p[i] < |env|
  {
    forall i | 0 <= i < |p| && Hoistable(env[p[i]]) :: p[i] !in p[..i]
  }

  /** A chain of types that comes back to a struct written in place, through a component, and to no other named
      struct before. */
  ghost predicate ComesBack(env: Types, w: seq<TypeId>)
    requires InRange(env)
  {
    && w != [] && (forall i | 0 <= i < |w| :: w[i] < |env|)
    && (forall i | 0 <= i < |w| - 1 :: w[i + 1] in Steps(env, w[i]))
    && var (before, last) := (w[..|w| - 1], w[|w| - 1]);
    EntersOnce(env, before) && InPlace(env[last]) && LostIn(env, before, last)
  }

  /** The structs entered along a chain, and those of them written in place since the last component. */
  ghost function EnteredBy(env: Types, p: seq<TypeId>): set<TypeId>
    requires forall i | 0 <= i < |p| :: p[i] < |env|
  {
    if p == [] then {} else Entered(env, EnteredBy(env, p[..|p| - 1]), p[|p| - 1])
  }

  ghost function KeptBy(env: Types, p: seq<TypeId>): set<TypeId>
    requires forall i | 0 <= i < |p| :: p[i] < |env|
  {
    if p == [] then {} else Kept(env, KeptBy(env, p[..|p| - 1]), p[|p| - 1])
  }

  lemma {:induction false} EnteredAre(env: Types, p: seq<TypeId>, v: TypeId)
    requires (forall i | 0 <= i < |p| :: p[i] < |env|) && v < |env| && Hoistable(env[v])
    ensures v in EnteredBy(env, p) <==> v in p
  {
    if p != [] {
      EnteredAre(env, p[..|p| - 1], v);
      assert p == p[..|p| - 1] + [p[|p| - 1]];
    }
  }

  /** A struct written in place that stands in p is no longer kept exactly when a component comes after it. */
  lemma {:induction false} LostIsNotKept(env: Types, p: seq<TypeId>, v: TypeId)
    requires (forall i | 0 <= i < |p| :: p[i] < |env|) && v < |env| && InPlace(env[v]) && EntersOnce(env, p)
    ensures v in p && v !in KeptBy(env, p) <==> LostIn(env, p, v)
  {
    if p != [] {
      var n := |p| - 1;
      OnceLater(env, p);
      KeptLater(env, p, v);
      LostLater(env, p, v);
      hide EntersOnce, KeptBy, LostIn;
      LostIsNotKept(env, p[..n], v);
    }
  }

  lemma OnceLater(env: Types, p: seq<TypeId>)
    requires p != [] && (forall i | 0 <= i < |p| :: p[i] < |env|) && EntersOnce(env, p)
    ensures var n := |p| - 1; EntersOnce(env, p[..n]) && (Hoistable(env[p[n]]) ==> p[n] !in p[..n])
  {
    var n := |p| - 1;
    assert forall i | 0 <= i < n :: p[..n][i] == p[i] && p[..n][..i] == p[..i];
  }

  lemma KeptLater(env: Types, p: seq<TypeId>, v: TypeId)
    requires p != [] && (forall i | 0 <= i < |p| :: p[i] < |env|) && v < |env| && InPlace(env[v])
    ensures var n := |p| - 1;
      && (v in p <==> v in p[..n] || v == p[n])
      && (v in KeptBy(env, p) <==> !Hoisted(env[p[n]]) && (v in KeptBy(env, p[..n]) || v == p[n]))
  {
    var n := |p| - 1;
    assert p == p[..n] + [p[n]];
  }

  lemma LostLater(env: Types, p: seq<TypeId>, v: TypeId)
    requires p != [] && forall i | 0 <= i < |p| :: p[i] < |env|
    ensures var n := |p| - 1; LostIn(env, p, v) <==> LostIn(env, p[..n], v) || (Hoisted(env[p[n]]) && v in p[..n])
  {
    var n := |p| - 1;
    var q := p[..n];
    if LostIn(env, p, v) {
      var i, j :| 0 <= i < j < |p| && p[i] == v && Hoisted(env[p[j]]);
      assert q[i] == v && (j < n ==> q[j] == p[j]);
    }
    if LostIn(env, q, v) {
      var i, j :| 0 <= i < j < |q| && q[i] == v && Hoisted(env[q[j]]);
      assert p[i] == v && p[j] == q[j];
    }
    if Hoisted(env[p[n]]) && v in q {
      var i :| 0 <= i < n && q[i] == v;
      assert p[i] == v;
    }
  }

  /** The chain diverges from its n-th type on. */
  ghost predicate DivergesFrom(env: Types, w: seq<TypeId>, n: nat)
    requires InRange(env) && n < |w| && forall i | 0 <= i < |w| :: w[i] < |env|
  {
    var k := |w| - 1;
    && (forall i | n <= i < k :: w[i + 1] in Steps(env, w[i]))
    && (forall i | n <= i < k && Hoistable(env[w[i]]) :: w[i] !in EnteredBy(env, w[..i]))
    && !IsLeaf(env, w[k]) && InPlace(env[w[k]]) && w[k] in EnteredBy(env, w[..k]) && w[k] !in KeptBy(env, w[..k])
  }

  lemma {:induction false} DivergesIs(env: Types, w: seq<TypeId>, n: nat)
    requires Finite(env) && n < |w| && forall i | 0 <= i < |w| :: w[i] < |env|
    ensures Diverges(env, w[n..], EnteredBy(env, w[..n]), KeptBy(env, w[..n])) <==> DivergesFrom(env, w, n)
    decreases |w| - n
  {
    hide Steps, IsLeaf, NeedsEarlier;
    var k := |w| - 1;
    if n < k {
      DivergesIs(env, w, n + 1);
      assert w[..n + 1][..n] == w[..n] && w[n..][1..] == w[n + 1..] && w[n..][1] == w[n + 1] && w[n..][0] == w[n];
      StepsOfLeaf(env, w[n]);
    } else {
      assert w[n..] == [w[n]];
    }
  }

  lemma StepsOfLeaf(env: Types, t: TypeId)
    requires InRange(env) && t < |env|
    ensures IsLeaf(env, t) ==> Steps(env, t) == {}
  {
  }

  lemma {:induction false} DivergesInTable(env: Types, w: seq<TypeId>, entered: set<TypeId>, inside: set<TypeId>)
    requires Finite(env) && Diverges(env, w, entered, inside)
    ensures forall i | 0 <= i < |w| :: w[i] < |env|
    decreases |w|
  {
    if |w| > 1 {
      DivergesInTable(env, w[1..], Entered(env, entered, w[0]), Kept(env, inside, w[0]));
      assert forall i | 0 < i < |w| :: w[i] == w[1..][i - 1];
    }
  }

  /** From the start, the chains that diverge are those that come back. */
  lemma DivergingIsComingBack(env: Types, w: seq<TypeId>)
    requires Finite(env)
    ensures Diverges(env, w, {}, {}) <==> ComesBack(env, w)
  {
    hide Steps, IsLeaf, Diverges, NeedsEarlier, EnteredBy, KeptBy;
    if Diverges(env, w, {}, {}) {
      DivergesInTable(env, w, {}, {});
    }
    if w != [] && forall i | 0 <= i < |w| :: w[i] < |env| {
      assert w[0..] == w && w[..0] == [];
      NothingEntered(env);
      DivergesIs(env, w, 0);
      FromStart(env, w);
    } else if w == [] {
      NotADivergence(env, w);
    }
  }

  lemma NothingEntered(env: Types)
    ensures EnteredBy(env, []) == {} && KeptBy(env, []) == {}
  {
  }

  lemma NotADivergence(env: Types, w: seq<TypeId>)
    requires Finite(env) && w == []
    ensures !Diverges(env, w, {}, {})
  {
  }

  lemma FromStart(env: Types, w: seq<TypeId>)
    requires Finite(env) && w != [] && forall i | 0 <= i < |w| :: w[i] < |env|
    ensures InRange(env) && (DivergesFrom(env, w, 0) <==> ComesBack(env, w))
  {
    FiniteInRange(env);
    var k := |w| - 1;
    var p := w[..k];
    EntersOnceIs(env, w);
    hide Steps, IsLeaf, EnteredBy, KeptBy, Finite, Hoisted, InRange, EntersOnce, LostIn;
    if InPlace(env[w[k]]) && EntersOnce(env, p) {
      EnteredAre(env, p, w[k]);
      LostIsNotKept(env, p, w[k]);
    }
    if forall i | 0 <= i < k :: w[i + 1] in Steps(env, w[i]) {
      LastHasSteps(env, w);
    }
  }

  lemma EntersOnceIs(env: Types, w: seq<TypeId>)
    requires w != [] && forall i | 0 <= i < |w| :: w[i] < |env|
    ensures EntersOnce(env, w[..|w| - 1])
      <==> forall i | 0 <= i < |w| - 1 && Hoistable(env[w[i]]) :: w[i] !in EnteredBy(env, w[..i])
  {
    var k := |w| - 1;
    assert forall i | 0 <= i < k :: w[..k][i] == w[i] && w[..k][..i] == w[..i];
    forall i | 0 <= i < k && Hoistable(env[w[i]]) ensures w[i] in EnteredBy(env, w[..i]) <==> w[i] in w[..i] {
      EnteredAre(env, w[..i], w[i]);
    }
    hide EnteredBy;
  }

  /** A type met before, on a chain, has steps. */
  lemma LastHasSteps(env: Types, w: seq<TypeId>)
    requires InRange(env) && w != [] && forall i | 0 <= i < |w| :: w[i] < |env|
    requires forall i | 0 <= i < |w| - 1 :: w[i + 1] in Steps(env, w[i])
    ensures w[|w| - 1] in w[..|w| - 1] ==> !IsLeaf(env, w[|w| - 1])
  {
    var k := |w| - 1;
    if i :| 0 <= i < k && w[..k][i] == w[k] {
      StepsOfLeaf(env, w[i]);
      assert w[i + 1] in Steps(env, w[i]);
    }
  }

  lemma FiniteInRange(env: Types)
    requires Finite(env)
    ensures InRange(env)
  {
  }

  // ---------------------------------------------------------------- the law

  /** A type's schema over its finished components has the normal form the type has with every struct in place
      exactly when no chain of types from it comes back, through a component, to a struct written in place. So
      hoisting is not hashed where all named structs are hoisted, or none is, or those in place are not
      recursive. */
  lemma HoistingIsNotHashed(env: Types, t: TypeId, schemas: Components)
    requires Finite(env) && DistinctProperties(env) && DistinctKeys(env)
    requires FinishedFor(env, schemas) && t < |env| && Held(SchemaAlone(env, t, {}), schemas.Keys)
    ensures Finite(Inlined(env))
    ensures (Normalize(SchemaAlone(env, t, {}), schemas, {}).out
        == Normalize(SchemaAlone(Inlined(env), t, {}), map[], {}).out)
      <==> !exists w :: w != [] && w[0] == t && ComesBack(env, w)
  {
    InlinedTable(env);
    assert KeysOf(env, {}) == {};
    hide Normalize, SchemaAlone, Held, FinishedFor, DistinctProperties, DistinctKeys, ComesBack, Diverges, KeysOf;
    TypeForms(env, t, {}, {}, schemas);
    forall w ensures Diverges(env, w, {}, {}) <==> ComesBack(env, w) {
      DivergingIsComingBack(env, w);
    }
  }
}
