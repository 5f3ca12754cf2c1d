/** A type's schema by itself: it does not depend on what the deriver has built before, and every
    finished component is the object schema of its type. */
module SchemaShapes {
  import opened JsonTrees
  import opened Options
  import opened Sorting
  import opened SortedNames
  import opened GoTypes
  import opened SchemaDeriver
  import opened DeriverLaws
  import opened StructProperties
  import JsonFields
  import opened Hash

  // ---------------------------------------------------------------- the book does not matter

  lemma {:induction false} SameSchema(env: Types, t: TypeId, visiting: set<TypeId>, b: Book, c: Book)
    requires Finite(env) && t < |env|
    ensures SchemaOf(env, t, visiting, b).0 == SchemaOf(env, t, visiting, c).0
    decreases NamedStructs(env) - visiting, t, 1, 0
  {
    var ty := env[t];
    if !IsLeaf(env, t) && !Hoisted(ty) {
      assert NeedsEarlier(env, t);
      if !ty.kind.Struct? {
        SameSchema(env, ElementOf(env, t), visiting, b, c);
      } else if !(Hoistable(ty) && t in visiting) {
        var visiting' := if Hoistable(ty) then visiting + {t} else visiting;
        SameProperties(env, ty.kind.fields, if Hoistable(ty) then |env| else t, visiting', b, c, map[]);
      }
    }
  }

  lemma {:induction false} SameProperties(env: Types, fields: seq<JsonField>, bound: nat, visiting: set<TypeId>,
      b: Book, c: Book, acc: map<string, Json>)
    requires Finite(env) && bound <= |env| && forall f | f in fields :: Fits(env, f, bound)
    ensures PropertiesOf(env, fields, bound, visiting, b, acc).0 == PropertiesOf(env, fields, bound, visiting, c, acc).0
    decreases NamedStructs(env) - visiting, bound, 0, |fields|
  {
    hide SchemaOf;
    if fields != [] {
      var f := fields[0];
      assert Fits(env, f, bound);
      if !f.quoted {
        SameSchema(env, f.typ, visiting, b, c);
      }
      var (s, b') := PropertyOf(env, f, bound, visiting, b);
      var (r, c') := PropertyOf(env, f, bound, visiting, c);
      SameProperties(env, fields[1..], bound, visiting, b', c', acc[f.name := s]);
    }
  }

  // ---------------------------------------------------------------- one schema per type

  /** The schema of a type, whatever has been built before. */
  function SchemaAlone(env: Types, t: TypeId, visiting: set<TypeId>): (s: Json)
    requires Finite(env) && t < |env|
    ensures s.Obj?
  {
    SchemaOf(env, t, visiting, NEW_BOOK).0
  }

  /** The schema of a struct's property. */
  function FieldSchema(env: Types, f: JsonField, visiting: set<TypeId>): (s: Json)
    requires Finite(env) && f.typ < |env|
    ensures s.Obj?
  {
    if f.quoted then QuotedSchema(env[f.typ]) else SchemaAlone(env, f.typ, visiting)
  }

  /** No two properties of a struct share a name. */
  ghost predicate DistinctProperties(env: Types) {
    forall t: TypeId | t < |env| && env[t].kind.Struct? :: NamesDiffer(env[t].kind.fields)
  }

  /** A table that gives each struct the properties its declaration resolves to is such a one. */
  lemma DescribedAreDistinct(env: Types, shapes: JsonFields.Shapes)
    requires Describes(env, shapes)
    ensures DistinctProperties(env)
  {
    hide ToFields;
    forall t: TypeId | t < |env| && env[t].kind.Struct? ensures NamesDiffer(env[t].kind.fields) {
      FieldsDiffer(shapes, t);
    }
  }

  /** s is the object schema of a struct with these properties. */
  ghost predicate IsObjectOf(env: Types, fields: seq<JsonField>, visiting: set<TypeId>, s: Json)
    requires Finite(env) && forall f | f in fields :: f.typ < |env|
  {
    exists properties ::
      && s == ObjectSchema(properties, RequiredNames(fields))
      && (forall k :: k in properties <==> IsNamed(fields, k))
      && (forall i | 0 <= i < |fields| ::
            fields[i].name in properties && properties[fields[i].name] == FieldSchema(env, fields[i], visiting))
  }

  lemma PropertiesAreObject(env: Types, fields: seq<JsonField>, bound: nat, visiting: set<TypeId>, b: Book)
    requires Finite(env) && bound <= |env| && NamesDiffer(fields)
    requires forall f | f in fields :: f.typ < |env| && Fits(env, f, bound)
    ensures IsObjectOf(env, fields, visiting,
        ObjectSchema(PropertiesOf(env, fields, bound, visiting, b, map[]).0, RequiredNames(fields)))
  {
    hide *;
    PropertiesAreFields(env, fields, bound, visiting, b, map[]);
    var properties := PropertiesOf(env, fields, bound, visiting, b, map[]).0;
    forall i | 0 <= i < |fields| ensures properties[fields[i].name] == FieldSchema(env, fields[i], visiting) {
      assert fields[i] in fields;
      PropertyAlone(env, fields[i], bound, visiting, properties[fields[i].name]);
    }
    FieldsMakeObject(env, fields, visiting, properties);
  }

  lemma FieldsMakeObject(env: Types, fields: seq<JsonField>, visiting: set<TypeId>, properties: map<string, Json>)
    requires Finite(env) && forall f | f in fields :: f.typ < |env|
    requires forall k :: k in properties <==> IsNamed(fields, k)
    requires forall i | 0 <= i < |fields| ::
      fields[i].name in properties && properties[fields[i].name] == FieldSchema(env, fields[i], visiting)
    ensures IsObjectOf(env, fields, visiting, ObjectSchema(properties, RequiredNames(fields)))
  {
    hide ObjectSchema, RequiredNames, FieldSchema, IsNamed;
  }

  lemma PropertyAlone(env: Types, f: JsonField, bound: nat, visiting: set<TypeId>, s: Json)
    requires Finite(env) && Fits(env, f, bound) && bound <= |env| && DerivedFrom(env, f, bound, visiting, s)
    ensures s == FieldSchema(env, f, visiting)
  {
    var b :| s == PropertyOf(env, f, bound, visiting, b).0;
    if !f.quoted {
      SameSchema(env, f.typ, visiting, b, NEW_BOOK);
    }
  }

  /** A struct written in place is the object of its properties. */
  lemma InlineIsObject(env: Types, t: TypeId, visiting: set<TypeId>)
    requires Finite(env) && DistinctProperties(env) && t < |env| && env[t].kind.Struct? && !IsLeaf(env, t)
    requires !Hoisted(env[t]) && !(Hoistable(env[t]) && t in visiting)
    ensures forall f | f in env[t].kind.fields :: f.typ < |env|
    ensures IsObjectOf(env, env[t].kind.fields, if Hoistable(env[t]) then visiting + {t} else visiting,
        SchemaAlone(env, t, visiting))
  {
    assert NeedsEarlier(env, t);
    var ty := env[t];
    var visiting' := if Hoistable(ty) then visiting + {t} else visiting;
    PropertiesAreObject(env, ty.kind.fields, if Hoistable(ty) then |env| else t, visiting', NEW_BOOK);
  }

  lemma HoistedIsRef(env: Types, t: TypeId, visiting: set<TypeId>)
    requires Finite(env) && t < |env| && Hoisted(env[t]) && !IsLeaf(env, t)
    ensures SchemaAlone(env, t, visiting) == RefTo(env[t].qualified)
  {
  }

  lemma AroundElement(env: Types, t: TypeId, visiting: set<TypeId>)
    requires Finite(env) && t < |env| && !IsLeaf(env, t) && !env[t].kind.Struct?
    ensures ElementOf(env, t) < t
    ensures SchemaAlone(env, t, visiting) == Around(env, t, SchemaAlone(env, ElementOf(env, t), visiting))
  {
    assert NeedsEarlier(env, t);
  }

  // ---------------------------------------------------------------- finished components

  /** Every finished component is the object schema of the type it was built for. */
  ghost predicate HoldsBodies(env: Types, b: Book)
    requires Finite(env)
  {
    forall k | k in b.schemas && b.schemas[k].Some? ::
      && k in b.types && b.types[k] < |env| && env[b.types[k]].kind.Struct?
      && IsObjectOf(env, FieldsOfType(env, b.types[k]), {}, b.schemas[k].value)
  }

  function FieldsOfType(env: Types, t: TypeId): (fields: seq<JsonField>)
    requires InRange(env)
    ensures forall f | f in fields :: f.typ < |env|
  {
    if t < |env| && env[t].kind.Struct? then env[t].kind.fields else []
  }

  lemma {:induction false} SchemaHoldsBodies(env: Types, t: TypeId, visiting: set<TypeId>, b: Book)
    requires Finite(env) && DistinctProperties(env) && t < |env| && BookOk(env, b) && HoldsBodies(env, b)
    ensures HoldsBodies(env, SchemaOf(env, t, visiting, b).1)
    decreases Keys(env) - b.schemas.Keys, NamedStructs(env) - visiting, t, 1, 0
  {
    hide BookOk, HoldsBodies;
    var ty := env[t];
    if IsLeaf(env, t) {
    } else if !ty.kind.Struct? {
      assert NeedsEarlier(env, t);
      SchemaHoldsBodies(env, ElementOf(env, t), visiting, b);
    } else if Hoisted(ty) {
      if ty.qualified !in b.schemas {
        assert ty.qualified in Keys(env) - b.schemas.Keys;
        FirstSightHoldsBodies(env, t, visiting, b);
      }
    } else if !(Hoistable(ty) && t in visiting) {
      assert NeedsEarlier(env, t);
      var visiting' := if Hoistable(ty) then visiting + {t} else visiting;
      PropertiesHoldBodies(env, ty.kind.fields, if Hoistable(ty) then |env| else t, visiting', b, map[]);
    }
  }

  lemma {:induction false} FirstSightHoldsBodies(env: Types, t: TypeId, visiting: set<TypeId>, b: Book)
    requires Finite(env) && DistinctProperties(env) && t < |env| && BookOk(env, b) && HoldsBodies(env, b)
    requires env[t].kind.Struct? && !IsLeaf(env, t) && Hoisted(env[t]) && env[t].qualified !in b.schemas
    ensures HoldsBodies(env, SchemaOf(env, t, visiting, b).1)
    decreases Keys(env) - b.schemas.Keys, NamedStructs(env) - visiting, t, 0, 0
  {
    var fields, begun := env[t].kind.fields, Begin(env, t, b);
    hide *;
    FirstSightFields(env, t, b);
    BeginKeeps(env, t, b);
    BeginHoldsBodies(env, t, b);
    PropertiesHoldBodies(env, fields, |env|, {}, begun, map[]);
    NothingHeld(begun.schemas.Keys);
    PropertiesKeep(env, fields, |env|, {}, begun, map[]);
    FirstSight(env, t, visiting, b);
    PropertiesAreObject(env, fields, |env|, {}, begun);
    var (properties, c) := PropertiesOf(env, fields, |env|, {}, begun, map[]);
    FiledHoldsBodies(env, t, b, c, ObjectSchema(properties, RequiredNames(fields)));
  }

  lemma FirstSightFields(env: Types, t: TypeId, b: Book)
    requires Finite(env) && DistinctProperties(env) && t < |env| && env[t].kind.Struct? && !IsLeaf(env, t)
    requires Hoisted(env[t]) && env[t].qualified !in b.schemas
    ensures Plain(env[t]) && FieldsOfType(env, t) == env[t].kind.fields && NamesDiffer(env[t].kind.fields)
    ensures forall f | f in env[t].kind.fields :: f.typ < |env| && Fits(env, f, |env|)
    ensures Keys(env) - Begin(env, t, b).schemas.Keys < Keys(env) - b.schemas.Keys
  {
    hide NamesDiffer;
    assert env[t].qualified in Keys(env) - b.schemas.Keys;
  }

  lemma NothingHeld(keys: set<string>)
    ensures AllHeld(map[], keys)
  {
  }

  lemma BeginHoldsBodies(env: Types, t: TypeId, b: Book)
    requires Finite(env) && t < |env| && BookOk(env, b) && HoldsBodies(env, b) && env[t].qualified !in b.schemas
    ensures HoldsBodies(env, Begin(env, t, b))
  {
    hide IsObjectOf, Held, IsBody;
    var begun := Begin(env, t, b);
    forall k | k in begun.schemas && begun.schemas[k].Some?
      ensures k in begun.types && begun.types[k] < |env| && env[begun.types[k]].kind.Struct?
      ensures IsObjectOf(env, FieldsOfType(env, begun.types[k]), {}, begun.schemas[k].value)
    {
      assert k in b.schemas && begun.types[k] == b.types[k];
    }
  }

  lemma FiledHoldsBodies(env: Types, t: TypeId, b: Book, c: Book, built: Json)
    requires Finite(env) && t < |env| && env[t].kind.Struct? && env[t].qualified !in b.schemas
    requires Keeps(env, Begin(env, t, b), c) && HoldsBodies(env, c)
    requires IsObjectOf(env, FieldsOfType(env, t), {}, built)
    ensures HoldsBodies(env, Filed(env, t, c, built))
  {
    FiledTypes(env, t, b, c, built);
    hide *;
    OneMoreBody(env, t, c, Filed(env, t, c, built), built);
  }

  lemma OneMoreBody(env: Types, t: TypeId, c: Book, filed: Book, built: Json)
    requires Finite(env) && t < |env| && env[t].kind.Struct? && HoldsBodies(env, c)
    requires IsObjectOf(env, FieldsOfType(env, t), {}, built)
    requires env[t].qualified in filed.types && filed.types[env[t].qualified] == t && filed.types == c.types
    requires filed.schemas == c.schemas[env[t].qualified := Some(built)]
    ensures HoldsBodies(env, filed)
  {
    hide IsObjectOf, FieldsOfType;
  }

  lemma FiledTypes(env: Types, t: TypeId, b: Book, c: Book, built: Json)
    requires t < |env| && env[t].qualified !in b.schemas && Keeps(env, Begin(env, t, b), c)
    ensures var filed, key := Filed(env, t, c, built), env[t].qualified;
      && key in filed.types && filed.types[key] == t && filed.types == c.types
      && filed.schemas == c.schemas[key := Some(built)]
  {
    hide Held, IsBody;
    assert Begin(env, t, b).types[env[t].qualified] == t;
  }

  lemma {:induction false} PropertiesHoldBodies(env: Types, fields: seq<JsonField>, bound: nat, visiting: set<TypeId>,
      b: Book, acc: map<string, Json>)
    requires Finite(env) && DistinctProperties(env) && bound <= |env|
    requires forall f | f in fields :: f.typ < |env| && Fits(env, f, bound)
    requires BookOk(env, b) && HoldsBodies(env, b)
    ensures HoldsBodies(env, PropertiesOf(env, fields, bound, visiting, b, acc).1)
    decreases Keys(env) - b.schemas.Keys, NamedStructs(env) - visiting, bound, 0, |fields|
  {
    hide BookOk, HoldsBodies, SchemaOf, Extends, DistinctProperties;
    if fields != [] {
      var f := fields[0];
      var (s, b') := PropertyOf(env, f, bound, visiting, b);
      PropertyKeeps(env, f, bound, visiting, b);
      if !f.quoted {
        SchemaHoldsBodies(env, f.typ, visiting, b);
      }
      PropertiesHoldBodies(env, fields[1..], bound, visiting, b', acc[f.name := s]);
    }
  }

  /** The properties that are always written. */
  ghost function Always(fields: seq<JsonField>): set<string> { set f | f in fields && !f.omittable :: f.name }

  /** v lists the names in sorted order, each once. */
  ghost predicate IsNameList(v: Json, names: set<string>) {
    exists listed :: v == Strs(listed) && IsSortedListing(listed, names)
  }

  /** An object schema names its properties when there are any, and requires, in sorted order and each once,
      those that are always written, when there are any. */
  lemma ObjectListsSorted(fields: seq<JsonField>, properties: map<string, Json>)
    requires NamesDiffer(fields) && forall k :: k in properties <==> IsNamed(fields, k)
    ensures var m := ObjectSchema(properties, RequiredNames(fields)).members;
      && m.Keys <= {"type", "properties", "required"} && "type" in m && m["type"] == Str("object")
      && (if fields == [] then "properties" !in m else "properties" in m && m["properties"] == Obj(properties))
      && (if Always(fields) == {} then "required" !in m
          else "required" in m && IsNameList(m["required"], Always(fields)))
  {
    var required := RequiredNames(fields);
    RequiredListed(fields);
    SortGivesListing(required, Always(fields));
    if fields != [] {
      assert fields[0].name in properties;
    }
    if required != [] {
      assert required[0] in Always(fields);
      assert IsNameList(Strs(StableSort(required, CodePointLess)), Always(fields));
    }
    hide StableSort, Strs, RequiredNames, NamesDiffer, IsSortedListing, Always, IsNameList;
  }

  lemma {:induction false} RequiredListed(fields: seq<JsonField>)
    requires NamesDiffer(fields)
    ensures Lists(RequiredNames(fields), Always(fields))
  {
    if fields != [] {
      RequiredListed(fields[1..]);
      RestDiffer(fields);
      assert Always(fields) == Always(fields[1..]) + if fields[0].omittable then {} else {fields[0].name};
    }
  }
}
