/** What the deriver keeps: its maps stay consistent, nothing built is ever changed, every schema it
    emits has one of a few shapes, and every reference it emits names a component it holds. */
module DeriverLaws {
  import opened JsonTrees
  import opened Options
  import opened Sorting
  import opened GoTypes
  import opened SchemaDeriver
  import opened Hash
  import opened HashHoisting

  const EMITTED_KEYS :=
    {"type", "format", "nullable", "items", "additionalProperties", "properties", "required", "allOf"}

  /** The shapes of schemas the deriver emits, at every schema position. */
  ghost predicate Emitted(v: Json)
    decreases v
  {
    v.Obj? && var m := v.members;
      if "$ref" in m then v == RefTo(RefName(v))
      else
        && m.Keys <= EMITTED_KEYS
        && (m == map[] || ("type" in m && m["type"].Str?))
        && ("format" in m ==> m["format"].Str?)
        && ("nullable" in m ==> m["nullable"] == Bool(true))
        && ("items" in m ==> Emitted(m["items"]))
        && ("additionalProperties" in m ==> Emitted(m["additionalProperties"]))
        && ("properties" in m ==>
              m["properties"].Obj? && m["properties"] != EMPTY
              && forall p | p in m["properties"].members :: Emitted(m["properties"].members[p]))
        && ("required" in m ==> IsStrings(m["required"]))
        && ("allOf" in m ==>
              m["allOf"].Arr? && |m["allOf"].items| == 1 && v == Wrapper(m["allOf"].items[0])
              && Emitted(m["allOf"].items[0]))
  }

  ghost function RefName(v: Json): string {
    if v.Obj? && "$ref" in v.members && RefTarget(v.members["$ref"]).Some?
    then RefTarget(v.members["$ref"]).value else ""
  }

  /** A schema whose references are all to components in the book. */
  ghost predicate Held(s: Json, keys: set<string>) {
    Emitted(s) && Refs(s) <= keys
  }

  ghost predicate BookOk(env: Types, b: Book) {
    && b.types.Keys == b.names.Keys == b.schemas.Keys
    && (forall k | k in b.types ::
          b.types[k] < |env| && Hoisted(env[b.types[k]]) && Plain(env[b.types[k]])
          && env[b.types[k]].qualified == k && b.names[k] == env[b.types[k]].component)
    && (forall k | k in b.schemas && b.schemas[k].Some? ::
          Held(b.schemas[k].value, b.schemas.Keys) && IsBody(b.schemas[k].value))
  }

  /** A component's schema: an object schema, never a reference. */
  predicate IsBody(v: Json) {
    v.Obj? && "type" in v.members && v.members["type"] == Str("object")
    && "$ref" !in v.members && "nullable" !in v.members && "allOf" !in v.members
  }

  /** Components that are object schemas and refer to one another only. */
  ghost predicate ClosedBodies(components: Components) {
    forall n | n in components :: Held(components[n], components.Keys) && IsBody(components[n])
  }

  /** b' holds all of b unchanged, and everything new in it is finished. */
  ghost predicate Extends(b: Book, b': Book) {
    && b.schemas.Keys <= b'.schemas.Keys
    && (forall k | k in b.schemas :: b'.schemas[k] == b.schemas[k])
    && (forall k | k in b.types :: k in b'.types && b'.types[k] == b.types[k])
    && (forall k | k in b'.schemas && k !in b.schemas :: b'.schemas[k].Some?)
  }

  lemma HeldRef(key: string, keys: set<string>)
    requires key in keys
    ensures Held(RefTo(key), keys)
  {
    assert (REF_PREFIX + key)[|REF_PREFIX|..] == key;
    assert RefTarget(RefTo(key).members["$ref"]) == Some(key);
  }

  lemma KeysDiffer()
    ensures forall k | k in EMITTED_KEYS :: k != "$ref"
  {
  }

  lemma HeldScalar(name: string, format: string, keys: set<string>)
    ensures Held(Typed(name), keys) && Held(Formatted(name, format), keys) && Held(EMPTY, keys)
    ensures Held(Nullable(Typed(name)), keys)
  {
    KeysDiffer();
    forall s | s in {Typed(name), Formatted(name, format), EMPTY, Nullable(Typed(name))} ensures Refs(s) == {} {
      forall k | k in s.members ensures KeywordRefs(k, s.members[k]) == {} {}
    }
  }

  lemma HeldArray(items: Json, keys: set<string>)
    requires Held(items, keys)
    ensures Held(Obj(map["type" := Str("array"), "items" := items]), keys)
  {
    KeysDiffer();
  }

  lemma HeldMap(values: Json, keys: set<string>)
    requires Held(values, keys)
    ensures Held(Obj(map["type" := Str("object"), "additionalProperties" := values]), keys)
  {
    KeysDiffer();
  }

  lemma HeldWrapper(inner: Json, keys: set<string>)
    requires Held(inner, keys)
    ensures Held(Wrapper(inner), keys)
  {
    KeysDiffer();
    var w := Wrapper(inner);
    forall k | k in w.members ensures KeywordRefs(k, w.members[k]) <= keys {
      if k == "allOf" {
        assert w.members[k].items == [inner];
        forall r | r in KeywordRefs(k, w.members[k]) ensures r in keys {
          var i :| 0 <= i < |w.members[k].items| && r in Refs(w.members[k].items[i]);
        }
      }
    }
  }

  lemma ObjectMembers(properties: map<string, Json>, required: seq<string>)
    ensures var m := ObjectSchema(properties, required).members;
      && m.Keys <= {"type", "properties", "required"}
      && "type" in m && m["type"] == Str("object")
      && ("properties" in m ==> properties != map[] && m["properties"] == Obj(properties))
      && ("required" in m ==> IsStrings(m["required"]))
  {
  }

  lemma HeldObject(properties: map<string, Json>, required: seq<string>, keys: set<string>)
    requires AllHeld(properties, keys)
    ensures Held(ObjectSchema(properties, required), keys) && IsBody(ObjectSchema(properties, required))
  {
    KeysDiffer();
    var s := ObjectSchema(properties, required);
    ObjectMembers(properties, required);
    forall k | k in s.members ensures KeywordRefs(k, s.members[k]) <= keys {
      if k == "properties" {
        forall r | r in KeywordRefs(k, s.members[k]) ensures r in keys {
          var p :| p in properties && r in Refs(properties[p]);
        }
      }
    }
  }

  /** Marking an emitted schema nullable in place gives an emitted schema with the same references. */
  lemma HeldNullable(s: Json, keys: set<string>)
    requires Held(s, keys) && s != EMPTY && !IsRef(s) && !IsNullable(s)
    ensures Held(Nullable(s), keys)
  {
    KeysDiffer();
    var n := Nullable(s);
    forall k | k in n.members ensures KeywordRefs(k, n.members[k]) <= keys {
      if k != "nullable" { assert KeywordRefs(k, s.members[k]) <= Refs(s); }
    }
  }

  lemma HeldPointTo(elem: GoType, inner: Json, keys: set<string>)
    requires Held(inner, keys)
    ensures Held(PointTo(elem, inner), keys)
  {
    if inner != EMPTY {
      if "$ref" in inner.members || (Hoistable(elem) && !IsNullable(inner)) {
        HeldWrapper(inner, keys);
      } else if !IsNullable(inner) {
        HeldNullable(inner, keys);
      }
    }
  }

  /** What one call of the deriver keeps, and what it adds. */
  ghost predicate Keeps(env: Types, b: Book, b': Book) {
    BookOk(env, b') && Extends(b, b')
  }

  lemma KeepsTrans(env: Types, a: Book, b: Book, c: Book)
    requires Keeps(env, a, b) && Keeps(env, b, c)
    ensures Keeps(env, a, c)
  {
  }

  lemma LeafKeeps(env: Types, t: TypeId, visiting: set<TypeId>, b: Book)
    requires Finite(env) && t < |env| && IsLeaf(env, t)
    ensures SchemaOf(env, t, visiting, b).1 == b
    ensures Held(SchemaOf(env, t, visiting, b).0, b.schemas.Keys)
  {
    assert Held(Formatted("string", "byte"), b.schemas.Keys) by { HeldScalar("string", "byte", b.schemas.Keys); }
    assert Held(Formatted("string", "date-time"), b.schemas.Keys) by {
      HeldScalar("string", "date-time", b.schemas.Keys);
    }
    assert Held(Formatted("integer", "int64"), b.schemas.Keys) by { HeldScalar("integer", "int64", b.schemas.Keys); }
    assert Held(Formatted("integer", "int32"), b.schemas.Keys) by { HeldScalar("integer", "int32", b.schemas.Keys); }
    assert Held(Formatted("number", "float"), b.schemas.Keys) by { HeldScalar("number", "float", b.schemas.Keys); }
    assert Held(Formatted("number", "double"), b.schemas.Keys) by { HeldScalar("number", "double", b.schemas.Keys); }
    assert Held(Typed("string"), b.schemas.Keys) && Held(EMPTY, b.schemas.Keys) by {
      HeldScalar("string", "", b.schemas.Keys);
    }
    assert Held(Nullable(Typed("string")), b.schemas.Keys) by { HeldScalar("string", "", b.schemas.Keys); }
    assert Held(Typed("boolean"), b.schemas.Keys) by { HeldScalar("boolean", "", b.schemas.Keys); }
    assert Held(Typed("integer"), b.schemas.Keys) by { HeldScalar("integer", "", b.schemas.Keys); }
  }

  /** A pointer or a collection around a held schema is held. */
  lemma AroundHeld(env: Types, t: TypeId, inner: Json, keys: set<string>)
    requires InRange(env) && t < |env| && !IsLeaf(env, t) && !env[t].kind.Struct? && Held(inner, keys)
    ensures Held(Around(env, t, inner), keys)
  {
    match env[t].kind
    case Pointer(e) => HeldPointTo(env[e], inner, keys);
    case MapOf(_, _) => HeldMap(inner, keys);
    case _ => HeldArray(inner, keys);
  }

  lemma {:induction false} SchemaKeeps(env: Types, t: TypeId, visiting: set<TypeId>, b: Book)
    requires Finite(env) && t < |env| && BookOk(env, b)
    ensures var (s, b') := SchemaOf(env, t, visiting, b); Keeps(env, b, b') && Held(s, b'.schemas.Keys)
    decreases Keys(env) - b.schemas.Keys, NamedStructs(env) - visiting, t, 1, 0
  {
    hide Emitted, Refs, IsBody;
    if IsLeaf(env, t) {
      LeafKeeps(env, t, visiting, b);
    } else if !env[t].kind.Struct? {
      assert NeedsEarlier(env, t);
      SchemaKeeps(env, ElementOf(env, t), visiting, b);
      var (inner, b') := SchemaOf(env, ElementOf(env, t), visiting, b);
      AroundHeld(env, t, inner, b'.schemas.Keys);
    } else {
      var ty, fields := env[t], env[t].kind.fields;
      if Hoisted(ty) {
        if ty.qualified in b.schemas {
          HeldRef(ty.qualified, b.schemas.Keys);
        } else {
          assert ty.qualified in Keys(env) - b.schemas.Keys;
          BeginKeeps(env, t, b);
          PropertiesKeep(env, fields, |env|, {}, Begin(env, t, b), map[]);
          var (properties, c) := PropertiesOf(env, fields, |env|, {}, Begin(env, t, b), map[]);
          FinishKeeps(env, t, b, c, properties);
          FirstSight(env, t, visiting, b);
        }
      } else if Hoistable(ty) && t in visiting {
        HeldScalar("", "", b.schemas.Keys);
      } else {
        var visiting' := if Hoistable(ty) then visiting + {t} else visiting;
        var bound := if Hoistable(ty) then |env| else t;
        PropertiesKeep(env, fields, bound, visiting', b, map[]);
        var (properties, b') := PropertiesOf(env, fields, bound, visiting', b, map[]);
        HeldObject(properties, RequiredNames(fields), b'.schemas.Keys);
      }
    }
  }

  /** The book while t's component is being built. */
  ghost function Begin(env: Types, t: TypeId, b: Book): Book
    requires t < |env|
  {
    var key := env[t].qualified;
    Book(b.schemas[key := None], b.types[key := t], b.names[key := env[t].component])
  }

  lemma BeginKeeps(env: Types, t: TypeId, b: Book)
    requires t < |env| && BookOk(env, b) && Hoisted(env[t]) && Plain(env[t]) && env[t].qualified !in b.schemas
    ensures BookOk(env, Begin(env, t, b))
  {
    hide Emitted, Refs, IsBody, Hoisted, Plain;
    var c := Begin(env, t, b);
    forall k | k in c.schemas && c.schemas[k].Some?
      ensures Held(c.schemas[k].value, c.schemas.Keys) && IsBody(c.schemas[k].value)
    {
      assert k in b.schemas && Held(b.schemas[k].value, b.schemas.Keys);
    }
  }

  /** The book once t's component is filed where it was begun. */
  ghost function Filed(env: Types, t: TypeId, c: Book, built: Json): Book
    requires t < |env|
  {
    c.(schemas := c.schemas[env[t].qualified := Some(built)])
  }

  lemma FiledOk(env: Types, t: TypeId, c: Book, built: Json)
    requires t < |env| && BookOk(env, c) && env[t].qualified in c.schemas
    requires Held(built, c.schemas.Keys) && IsBody(built)
    ensures BookOk(env, Filed(env, t, c, built))
  {
    var d := Filed(env, t, c, built);
    assert d.schemas.Keys == c.schemas.Keys;
  }

  lemma FiledExtends(env: Types, t: TypeId, b: Book, c: Book, built: Json)
    requires t < |env| && env[t].qualified !in b.schemas && env[t].qualified !in b.types
    requires Extends(Begin(env, t, b), c)
    ensures Extends(b, Filed(env, t, c, built))
  {
    var begun := Begin(env, t, b);
    forall k | k in b.schemas ensures k in c.schemas && Filed(env, t, c, built).schemas[k] == b.schemas[k] {
      assert begun.schemas[k] == b.schemas[k];
    }
    forall k | k in b.types ensures k in c.types && c.types[k] == b.types[k] {
      assert begun.types[k] == b.types[k];
    }
  }

  /** The first sight of a hoisted type, step by step. */
  lemma FirstSight(env: Types, t: TypeId, visiting: set<TypeId>, b: Book)
    requires Finite(env) && t < |env| && env[t].kind.Struct? && Hoisted(env[t]) && !IsLeaf(env, t)
    requires env[t].qualified !in b.schemas
    ensures var (properties, c) := PropertiesOf(env, env[t].kind.fields, |env|, {}, Begin(env, t, b), map[]);
      SchemaOf(env, t, visiting, b)
        == (RefTo(env[t].qualified), Filed(env, t, c, ObjectSchema(properties, RequiredNames(env[t].kind.fields))))
  {
  }

  lemma FinishKeeps(env: Types, t: TypeId, b: Book, c: Book, properties: map<string, Json>)
    requires t < |env| && BookOk(env, b) && env[t].kind.Struct? && Hoisted(env[t])
    requires env[t].qualified !in b.schemas && Keeps(env, Begin(env, t, b), c)
    requires AllHeld(properties, c.schemas.Keys)
    ensures var d := Filed(env, t, c, ObjectSchema(properties, RequiredNames(env[t].kind.fields)));
      Keeps(env, b, d) && Held(RefTo(env[t].qualified), d.schemas.Keys)
  {
    var built := ObjectSchema(properties, RequiredNames(env[t].kind.fields));
    assert env[t].qualified in Begin(env, t, b).schemas;
    HeldObject(properties, RequiredNames(env[t].kind.fields), c.schemas.Keys);
    FiledOk(env, t, c, built);
    FiledExtends(env, t, b, c, built);
    HeldRef(env[t].qualified, Filed(env, t, c, built).schemas.Keys);
  }

  ghost predicate AllHeld(properties: map<string, Json>, keys: set<string>) {
    forall p | p in properties :: Held(properties[p], keys)
  }

  lemma AccumulatorHeld(acc: map<string, Json>, name: string, s: Json, keys: set<string>, keys': set<string>)
    requires AllHeld(acc, keys) && keys <= keys' && Held(s, keys')
    ensures AllHeld(acc[name := s], keys')
  {
    hide Emitted, Refs;
    forall p | p in acc && p != name ensures Held(acc[p], keys') {
      assert Held(acc[p], keys);
    }
  }

  lemma {:induction false} PropertiesKeep(env: Types, fields: seq<JsonField>, bound: nat,
      visiting: set<TypeId>, b: Book, acc: map<string, Json>)
    requires Finite(env) && bound <= |env| && (forall f | f in fields :: Fits(env, f, bound))
    requires BookOk(env, b) && AllHeld(acc, b.schemas.Keys)
    ensures var (properties, b') := PropertiesOf(env, fields, bound, visiting, b, acc);
      Keeps(env, b, b') && AllHeld(properties, b'.schemas.Keys)
    decreases Keys(env) - b.schemas.Keys, NamedStructs(env) - visiting, bound, 0, |fields|
  {
    if fields != [] {
      var f := fields[0];
      var (s, b1) := PropertyOf(env, f, bound, visiting, b);
      PropertyKeeps(env, f, bound, visiting, b);
      AccumulatorHeld(acc, f.name, s, b.schemas.Keys, b1.schemas.Keys);
      PropertiesKeep(env, fields[1..], bound, visiting, b1, acc[f.name := s]);
      KeepsTrans(env, b, b1, PropertiesOf(env, fields, bound, visiting, b, acc).1);
    }
  }

  lemma {:induction false} PropertyKeeps(env: Types, f: JsonField, bound: nat, visiting: set<TypeId>, b: Book)
    requires Finite(env) && Fits(env, f, bound) && bound <= |env| && BookOk(env, b)
    ensures var (s, b') := PropertyOf(env, f, bound, visiting, b); Keeps(env, b, b') && Held(s, b'.schemas.Keys)
    decreases Keys(env) - b.schemas.Keys, NamedStructs(env) - visiting, bound, 0, 0
  {
    if f.quoted {
      HeldScalar("string", "", b.schemas.Keys);
    } else {
      SchemaKeeps(env, f.typ, visiting, b);
    }
  }
}
