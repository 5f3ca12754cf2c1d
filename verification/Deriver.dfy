/** The deriver (contract/schema.go): from Go types to schemas, hoisting every named struct with a
    component name under a provisional key. SchemaOf threads the deriver's maps as a value; the
    class below it is the source's object, whose methods update them in place. */
module SchemaDeriver {
  import opened JsonTrees
  import opened Options
  import opened Sorting
  import opened GoTypes
  import opened SortedNames
  import Hash

  /** The deriver's maps. A schema is None while it is being built. */
  datatype Book = Book(schemas: map<string, Option<Json>>, types: map<string, TypeId>, names: map<string, string>)

  const NEW_BOOK := Book(map[], map[], map[])

  function Typed(name: string): Json { Obj(map["type" := Str(name)]) }

  function Formatted(name: string, format: string): Json {
    Obj(map["type" := Str(name), "format" := Str(format)])
  }

  predicate IsNullable(s: Json) { s.Obj? && "nullable" in s.members && s.members["nullable"] == Bool(true) }

  function Nullable(s: Json): Json
    requires s.Obj?
  {
    Obj(s.members["nullable" := Bool(true)])
  }

  function Wrapper(s: Json): Json {
    Obj(map["type" := Str("object"), "nullable" := Bool(true), "allOf" := Arr([s])])
  }

  function Strs(names: seq<string>): Json {
    Arr(seq(|names|, i requires 0 <= i < |names| => Str(names[i])))
  }

  function RequiredNames(fields: seq<JsonField>): seq<string> {
    if fields == [] then []
    else (if fields[0].omittable then [] else [fields[0].name]) + RequiredNames(fields[1..])
  }

  lemma {:induction false} RequiredOneMore(fields: seq<JsonField>, f: JsonField)
    ensures RequiredNames(fields + [f]) == RequiredNames(fields) + if f.omittable then [] else [f.name]
  {
    if fields != [] {
      RequiredOneMore(fields[1..], f);
      assert (fields + [f])[1..] == fields[1..] + [f];
    }
  }

  /** The object schema of a struct whose properties have been derived. */
  function ObjectSchema(properties: map<string, Json>, required: seq<string>): Json {
    var m := map["type" := Str("object")];
    var m := if properties == map[] then m else m["properties" := Obj(properties)];
    Obj(if required == [] then m else m["required" := Strs(StableSort(required, CodePointLess))])
  }

  /** The schema of a ",string" field. */
  function QuotedSchema(t: GoType): Json {
    if t.kind.Pointer? then Nullable(Typed("string")) else Typed("string")
  }

  /** pointer, once its target's schema is known. */
  function PointTo(elem: GoType, inner: Json): (r: Json)
    requires inner.Obj?
    ensures r.Obj?
  {
    if inner == EMPTY then inner
    else if "$ref" in inner.members || (Hoistable(elem) && !IsNullable(inner)) then Wrapper(inner)
    else if !IsNullable(inner) then Nullable(inner)
    else inner
  }

  /** The schema of a type that needs no other's. */
  function LeafSchema(env: Types, t: TypeId): (r: Json)
    requires InRange(env) && t < |env| && IsLeaf(env, t)
    ensures r.Obj?
  {
    var ty := env[t];
    if ty.time then Formatted("string", "date-time")
    else if ty.rawMessage then EMPTY
    else if ty.kind.Pointer? then
      var elem := env[ty.kind.elem];
      if !elem.time && !elem.jsonMarshaler && ty.jsonMarshaler then EMPTY else Nullable(Typed("string"))
    else if ty.jsonMarshaler then EMPTY
    else if ty.textMarshaler then Typed("string")
    else
      match ty.kind
      case StringKind => Typed("string")
      case BoolKind => Typed("boolean")
      case IntKind | Int64Kind | Uint32Kind => Formatted("integer", "int64")
      case Int8Kind | Int16Kind | Int32Kind | Uint8Kind | Uint16Kind => Formatted("integer", "int32")
      case UintKind | Uint64Kind | UintptrKind => Typed("integer")
      case Float32Kind => Formatted("number", "float")
      case Float64Kind => Formatted("number", "double")
      case Slice(_) => Formatted("string", "byte")
      case _ => EMPTY  // interface, a map without string keys, a type JSON cannot hold
  }

  /** A pointer or a collection: the type its schema is made of. */
  function ElementOf(env: Types, t: TypeId): (e: TypeId)
    requires InRange(env) && t < |env| && !IsLeaf(env, t) && !env[t].kind.Struct?
    ensures e < |env|
  {
    match env[t].kind
    case Pointer(e) => e
    case Slice(e) => e
    case Array(e) => e
    case MapOf(_, e) => e
  }

  /** The types whose schemas t's schema is made of. */
  ghost function Steps(env: Types, t: TypeId): (steps: set<TypeId>)
    requires InRange(env)
    ensures forall e | e in steps :: e < |env|
  {
    if t >= |env| || IsLeaf(env, t) then {}
    else if !env[t].kind.Struct? then {ElementOf(env, t)}
    else set f | f in env[t].kind.fields && !f.quoted :: f.typ
  }

  /** A pointer's or a collection's schema, once the element's is known. */
  function Around(env: Types, t: TypeId, inner: Json): (r: Json)
    requires InRange(env) && t < |env| && !IsLeaf(env, t) && !env[t].kind.Struct? && inner.Obj?
    ensures r.Obj?
  {
    match env[t].kind
    case Pointer(e) => PointTo(env[e], inner)
    case MapOf(_, _) => Obj(map["type" := Str("object"), "additionalProperties" := inner])
    case _ => Obj(map["type" := Str("array"), "items" := inner])
  }

  /** schema. */
  function SchemaOf(env: Types, t: TypeId, visiting: set<TypeId>, book: Book): (r: (Json, Book))
    requires Finite(env) && t < |env|
    ensures r.0.Obj? && book.schemas.Keys <= r.1.schemas.Keys
    decreases Keys(env) - book.schemas.Keys, NamedStructs(env) - visiting, t, 1, 0
  {
    var ty := env[t];
    if IsLeaf(env, t) then (LeafSchema(env, t), book)
    else if !ty.kind.Struct? then
      assert NeedsEarlier(env, t);
      var (inner, book') := SchemaOf(env, ElementOf(env, t), visiting, book);
      (Around(env, t, inner), book')
    else if Hoisted(ty) then
      var key := ty.qualified;
      if key in book.schemas then (Hash.RefTo(key), book)
      else
        assert key in Keys(env) - book.schemas.Keys;
        var started := Book(book.schemas[key := None], book.types[key := t], book.names[key := ty.component]);
        var (properties, book') := PropertiesOf(env, ty.kind.fields, |env|, {}, started, map[]);
        var built := ObjectSchema(properties, RequiredNames(ty.kind.fields));
        (Hash.RefTo(key), book'.(schemas := book'.schemas[key := Some(built)]))
    else if Hoistable(ty) && t in visiting then (EMPTY, book)
    else
      assert NeedsEarlier(env, t);
      var visiting' := if Hoistable(ty) then visiting + {t} else visiting;
      var bound := if Hoistable(ty) then |env| else t;
      var (properties, book') := PropertiesOf(env, ty.kind.fields, bound, visiting', book, map[]);
      (ObjectSchema(properties, RequiredNames(ty.kind.fields)), book')
  }

  /** object's loop over the struct's properties, from a state of its accumulator. */
  function PropertiesOf(env: Types, fields: seq<JsonField>, bound: nat, visiting: set<TypeId>, book: Book,
      acc: map<string, Json>)
    : (r: (map<string, Json>, Book))
    requires Finite(env) && bound <= |env| && forall f | f in fields :: Fits(env, f, bound)
    ensures book.schemas.Keys <= r.1.schemas.Keys
    decreases Keys(env) - book.schemas.Keys, NamedStructs(env) - visiting, bound, 0, |fields|
  {
    if fields == [] then (acc, book)
    else
      var (s, book') := PropertyOf(env, fields[0], bound, visiting, book);
      PropertiesOf(env, fields[1..], bound, visiting, book', acc[fields[0].name := s])
  }

  function PropertyOf(env: Types, f: JsonField, bound: nat, visiting: set<TypeId>, book: Book): (r: (Json, Book))
    requires Finite(env) && Fits(env, f, bound) && bound <= |env|
    ensures r.0.Obj? && book.schemas.Keys <= r.1.schemas.Keys
    decreases Keys(env) - book.schemas.Keys, NamedStructs(env) - visiting, bound, 0, 0
  {
    if f.quoted then (QuotedSchema(env[f.typ]), book) else SchemaOf(env, f.typ, visiting, book)
  }

  class Deriver {
    const env: Types
    var schemas: map<string, Option<Json>>
    var types: map<string, TypeId>
    var names: map<string, string>

    function State(): Book
      reads this
    {
      Book(schemas, types, names)
    }

    constructor (env: Types)
      ensures this.env == env && State() == NEW_BOOK
    {
      this.env := env;
      schemas, types, names := map[], map[], map[];
    }

    /** schema: the type switch. */
    method Schema(t: TypeId, visiting: set<TypeId>) returns (s: Json)
      requires Finite(env) && t < |env|
      modifies this
      ensures (s, State()) == SchemaOf(env, t, visiting, old(State()))
      decreases Keys(env) - schemas.Keys, NamedStructs(env) - visiting, t, 1, 0
    {
      var ty := env[t];
      if ty.time {
        return Formatted("string", "date-time");
      }
      if ty.rawMessage {
        return EMPTY;
      }
      if ty.kind.Pointer? {
        s := PointerSchema(t, visiting);
        return;
      }
      if ty.jsonMarshaler {
        return EMPTY;
      }
      if ty.textMarshaler {
        return Typed("string");
      }
      match ty.kind
      case StringKind => s := Typed("string");
      case BoolKind => s := Typed("boolean");
      case IntKind | Int64Kind | Uint32Kind => s := Formatted("integer", "int64");
      case Int8Kind | Int16Kind | Int32Kind | Uint8Kind | Uint16Kind => s := Formatted("integer", "int32");
      case UintKind | Uint64Kind | UintptrKind => s := Typed("integer");
      case Float32Kind => s := Formatted("number", "float");
      case Float64Kind => s := Formatted("number", "double");
      case InterfaceKind => s := EMPTY;
      case Slice(e) =>
        if env[e].kind.Uint8Kind? && !env[e].jsonMarshaler && !env[e].textMarshaler {
          return Formatted("string", "byte");
        }
        assert NeedsEarlier(env, t);
        var items := Schema(e, visiting);
        s := Obj(map["type" := Str("array"), "items" := items]);
      case Array(e) =>
        assert NeedsEarlier(env, t);
        var items := Schema(e, visiting);
        s := Obj(map["type" := Str("array"), "items" := items]);
      case MapOf(k, e) =>
        if !StringKeyed(env[k]) {
          return EMPTY;
        }
        assert NeedsEarlier(env, t);
        var values := Schema(e, visiting);
        s := Obj(map["type" := Str("object"), "additionalProperties" := values]);
      case Struct(_, _) => s := StructSchema(t, visiting);
      case Unmarshalable => s := EMPTY;
    }

    /** pointer: marks its target's schema nullable, in place or through the wrapper. */
    method PointerSchema(t: TypeId, visiting: set<TypeId>) returns (s: Json)
      requires Finite(env) && t < |env| && env[t].kind.Pointer? && !env[t].time && !env[t].rawMessage
      modifies this
      ensures (s, State()) == SchemaOf(env, t, visiting, old(State()))
      decreases Keys(env) - schemas.Keys, NamedStructs(env) - visiting, t, 0, 1
    {
      var ty := env[t];
      var elem := env[ty.kind.elem];
      if !elem.time && !elem.jsonMarshaler && ty.jsonMarshaler {
        return EMPTY;
      }
      if !elem.textMarshaler && ty.textMarshaler {
        return Nullable(Typed("string"));
      }
      assert NeedsEarlier(env, t);
      var inner := Schema(ty.kind.elem, visiting);
      s := inner;
      if s.members == map[] {
        return;
      }
      if "$ref" in s.members || (Hoistable(elem) && !IsNullable(s)) {
        return Wrapper(s);
      }
      if !IsNullable(s) {
        s := Obj(s.members["nullable" := Bool(true)]);
      }
    }

    /** structSchema: a reference to a component built on first sight, or the object in place. */
    method StructSchema(t: TypeId, visiting: set<TypeId>) returns (s: Json)
      requires Finite(env) && t < |env| && env[t].kind.Struct?
      requires !env[t].time && !env[t].rawMessage && !env[t].jsonMarshaler && !env[t].textMarshaler
      modifies this
      ensures (s, State()) == SchemaOf(env, t, visiting, old(State()))
      decreases Keys(env) - schemas.Keys, NamedStructs(env) - visiting, t, 0, 2
    {
      var ty := env[t];
      var inlining := visiting;
      if Hoistable(ty) {
        if ty.component != "" {
          var key := ty.qualified;
          if key !in schemas {
            assert key in Keys(env) - schemas.Keys;
            schemas := schemas[key := None];
            types := types[key := t];
            names := names[key := ty.component];
            var built := Object(t, |env|, {});
            schemas := schemas[key := Some(built)];
          }
          return Hash.RefTo(key);
        }
        if t in visiting {
          return EMPTY;
        }
        inlining := visiting + {t};
        s := Object(t, |env|, inlining);
      } else {
        assert NeedsEarlier(env, t);
        s := Object(t, t, inlining);
      }
    }

    /** One field's property, in object's loop. */
    method Property(f: JsonField, ghost bound: nat, visiting: set<TypeId>) returns (s: Json)
      requires Finite(env) && Fits(env, f, bound) && bound <= |env|
      modifies this
      ensures (s, State()) == PropertyOf(env, f, bound, visiting, old(State()))
      decreases Keys(env) - schemas.Keys, NamedStructs(env) - visiting, bound, 0, 0
    {
      if f.quoted {
        s := Typed("string");
        if env[f.typ].kind.Pointer? {
          s := Nullable(s);
        }
      } else {
        s := Schema(f.typ, visiting);
      }
    }

    /** object: the properties in field order, then required. */
    method Object(t: TypeId, ghost bound: nat, visiting: set<TypeId>) returns (s: Json)
      requires Finite(env) && t < |env| && env[t].kind.Struct?
      requires bound <= |env| && forall f | f in env[t].kind.fields :: Fits(env, f, bound)
      modifies this
      ensures var (properties, book) := PropertiesOf(env, env[t].kind.fields, bound, visiting, old(State()), map[]);
        State() == book && s == ObjectSchema(properties, RequiredNames(env[t].kind.fields))
      decreases Keys(env) - schemas.Keys, NamedStructs(env) - visiting, bound, 0, 1
    {
      hide SchemaOf, Finite;
      var fields := env[t].kind.fields;
      var properties: map<string, Json> := map[];
      var required: seq<string> := [];
      var i := 0;
      assert fields[0..] == fields;
      while i < |fields|
        invariant 0 <= i <= |fields|
        invariant old(schemas.Keys) <= schemas.Keys
        invariant PropertiesOf(env, fields[i..], bound, visiting, State(), properties)
               == PropertiesOf(env, fields, bound, visiting, old(State()), map[])
        invariant required == RequiredNames(fields[..i])
      {
        var f := fields[i];
        assert fields[i..][1..] == fields[i + 1..];
        assert fields[..i + 1] == fields[..i] + [f];
        RequiredOneMore(fields[..i], f);
        var prop := Property(f, bound, visiting);
        properties := properties[f.name := prop];
        if !f.omittable {
          required := required + [f.name];
        }
        i := i + 1;
      }
      assert fields[i..] == [] && fields[..i] == fields;
      s := ObjectSchema(properties, required);
    }
  }
}
