/** A struct's object schema against Go's embedding rule: the deriver's object (contract/schema.go) over
    the properties jsonFields resolves. */
module StructProperties {
  import opened JsonTrees
  import opened GoTypes
  import opened SchemaDeriver
  import opened JsonFields
  import opened JsonFieldLaws

  function ToField(c: Candidate): JsonField { JsonField(c.name, c.typ, c.quoted, c.omittable) }

  function ToFields(cs: seq<Candidate>): seq<JsonField> {
    seq(|cs|, i requires 0 <= i < |cs| => ToField(cs[i]))
  }

  /** The deriver's table gives each struct the properties its declaration resolves to. */
  ghost predicate Describes(env: Types, shapes: Shapes) {
    && |env| == |shapes|
    && forall t: TypeId | t < |env| :: (env[t].kind.Struct? <==> IsStruct(shapes, t))
         && (env[t].kind.Struct? ==> env[t].kind.fields == ToFields(FieldsOf(shapes, t)))
  }

  ghost predicate NamesDiffer(fields: seq<JsonField>) {
    forall i, j | 0 <= i < j < |fields| :: fields[i].name != fields[j].name
  }

  ghost predicate IsNamed(fields: seq<JsonField>, name: string) {
    exists i :: 0 <= i < |fields| && fields[i].name == name
  }

  /** The property is derived from the field's own type, in some state of the deriver. */
  ghost predicate DerivedFrom(env: Types, f: JsonField, bound: nat, visiting: set<TypeId>, s: Json)
    requires Finite(env) && Fits(env, f, bound) && bound <= |env|
  {
    exists b :: s == PropertyOf(env, f, bound, visiting, b).0
  }

  /** One property per field, derived from that field. */
  ghost predicate HasFields(env: Types, fields: seq<JsonField>, bound: nat, visiting: set<TypeId>,
      properties: map<string, Json>)
    requires Finite(env) && bound <= |env| && forall f | f in fields :: Fits(env, f, bound)
  {
    && (forall k :: k in properties <==> IsNamed(fields, k))
    && (forall i | 0 <= i < |fields| ::
          fields[i].name in properties && DerivedFrom(env, fields[i], bound, visiting, properties[fields[i].name]))
  }

  /** The property loop leaves one property per field, derived from that field. */
  lemma {:induction false} PropertiesAreFields(env: Types, fields: seq<JsonField>, bound: nat, visiting: set<TypeId>,
      book: Book, acc: map<string, Json>)
    requires Finite(env) && bound <= |env| && (forall f | f in fields :: Fits(env, f, bound)) && NamesDiffer(fields)
    ensures var properties := PropertiesOf(env, fields, bound, visiting, book, acc).0;
      && (forall k :: k in properties <==> k in acc || IsNamed(fields, k))
      && (forall k | k in acc && !IsNamed(fields, k) :: properties[k] == acc[k])
      && (forall i | 0 <= i < |fields| ::
            fields[i].name in properties && DerivedFrom(env, fields[i], bound, visiting, properties[fields[i].name]))
    decreases |fields|
  {
    if fields != [] {
      var first, rest := fields[0], fields[1..];
      var (s, book') := PropertyOf(env, first, bound, visiting, book);
      RestDiffer(fields);
      PropertiesAreFields(env, rest, bound, visiting, book', acc[first.name := s]);
      assert DerivedFrom(env, first, bound, visiting, s);
      assert PropertiesOf(env, fields, bound, visiting, book, acc)
          == PropertiesOf(env, rest, bound, visiting, book', acc[first.name := s]);
      hide PropertyOf, PropertiesOf, DerivedFrom, Finite, IsNamed;
      forall k {
        NamedFirstOrRest(fields, k);
      }
      forall i | 0 < i < |fields| ensures rest[i - 1] == fields[i] {}
    }
  }

  lemma RestDiffer(fields: seq<JsonField>)
    requires fields != [] && NamesDiffer(fields)
    ensures NamesDiffer(fields[1..]) && !IsNamed(fields[1..], fields[0].name)
  {
    var rest := fields[1..];
    assert forall i | 0 <= i < |rest| :: rest[i] == fields[i + 1];
  }

  lemma NamedFirstOrRest(fields: seq<JsonField>, k: string)
    requires fields != []
    ensures IsNamed(fields, k) <==> k == fields[0].name || IsNamed(fields[1..], k)
  {
    var rest := fields[1..];
    if IsNamed(rest, k) {
      var i :| 0 <= i < |rest| && rest[i].name == k;
      assert fields[i + 1].name == k;
    }
    if IsNamed(fields, k) {
      var i :| 0 <= i < |fields| && fields[i].name == k;
      assert i > 0 ==> rest[i - 1].name == k;
    }
  }

  lemma {:induction false} RequiredAre(fields: seq<JsonField>, name: string)
    ensures name in RequiredNames(fields) <==>
      exists i :: 0 <= i < |fields| && fields[i].name == name && !fields[i].omittable
  {
    if fields != [] {
      RequiredAre(fields[1..], name);
      if exists i :: 0 <= i < |fields| && fields[i].name == name && !fields[i].omittable {
        var i :| 0 <= i < |fields| && fields[i].name == name && !fields[i].omittable;
        assert i > 0 ==> fields[1..][i - 1] == fields[i];
      }
      if name in RequiredNames(fields[1..]) {
        var i :| 0 <= i < |fields[1..]| && fields[1..][i].name == name && !fields[1..][i].omittable;
        assert fields[i + 1].name == name;
      }
    }
  }

  /** The winner at the end of p has its property, derived from its own type. */
  ghost predicate WinnerDerived(env: Types, shapes: Shapes, t: TypeId, p: Path, bound: nat, visiting: set<TypeId>,
      properties: map<string, Json>)
    requires Finite(env) && bound <= |env| && WinsTree(shapes, t, p)
  {
    var c := At(shapes, t, p, 0, false);
    Fits(env, ToField(c), bound) && c.name in properties
      && DerivedFrom(env, ToField(c), bound, visiting, properties[c.name])
  }

  /** The properties are exactly the fields that win their names over the whole tree of embedded structs,
      each derived from the winner's own type. */
  ghost predicate OnePerWinner(env: Types, shapes: Shapes, t: TypeId, bound: nat, visiting: set<TypeId>,
      properties: map<string, Json>)
    requires Finite(env) && bound <= |env| && IsStruct(shapes, t)
  {
    && (forall name :: name in properties <==>
          exists p :: WinsTree(shapes, t, p) && PropertyName(Target(shapes, t, p)) == name)
    && (forall p | WinsTree(shapes, t, p) :: WinnerDerived(env, shapes, t, p, bound, visiting, properties))
  }

  lemma StructHasFields(env: Types, shapes: Shapes, t: TypeId, bound: nat, visiting: set<TypeId>, book: Book)
    requires Finite(env) && Describes(env, shapes) && t < |env| && env[t].kind.Struct?
    requires bound <= |env| && forall f | f in env[t].kind.fields :: Fits(env, f, bound)
    ensures IsStruct(shapes, t) && env[t].kind.fields == ToFields(FieldsOf(shapes, t))
    ensures HasFields(env, env[t].kind.fields, bound, visiting,
                      PropertiesOf(env, env[t].kind.fields, bound, visiting, book, map[]).0)
  {
    hide Finite, PropertiesOf, ToFields, FieldsOf, DerivedFrom, IsNamed;
    FieldsDiffer(shapes, t);
    PropertiesAreFields(env, env[t].kind.fields, bound, visiting, book, map[]);
  }

  /** A struct's schema has one property per winner. */
  lemma PropertiesAreWinners(env: Types, shapes: Shapes, t: TypeId, bound: nat, visiting: set<TypeId>, book: Book)
    requires Finite(env) && Describes(env, shapes) && t < |env| && env[t].kind.Struct?
    requires bound <= |env| && forall f | f in env[t].kind.fields :: Fits(env, f, bound)
    ensures IsStruct(shapes, t)
    ensures OnePerWinner(env, shapes, t, bound, visiting,
                         PropertiesOf(env, env[t].kind.fields, bound, visiting, book, map[]).0)
  {
    hide *;
    StructHasFields(env, shapes, t, bound, visiting, book);
    ListsWinners(env, shapes, t, env[t].kind.fields, bound, visiting,
                 PropertiesOf(env, env[t].kind.fields, bound, visiting, book, map[]).0);
  }

  lemma ListsWinners(env: Types, shapes: Shapes, t: TypeId, fields: seq<JsonField>, bound: nat,
      visiting: set<TypeId>, properties: map<string, Json>)
    requires Finite(env) && bound <= |env| && IsStruct(shapes, t)
    requires fields == ToFields(FieldsOf(shapes, t)) && forall f | f in fields :: Fits(env, f, bound)
    requires HasFields(env, fields, bound, visiting, properties)
    ensures OnePerWinner(env, shapes, t, bound, visiting, properties)
  {
    forall name | name in properties
      ensures exists p :: WinsTree(shapes, t, p) && PropertyName(Target(shapes, t, p)) == name
    {
      hide Finite, ToFields, FieldsOf, WinsTree, Target, At, DerivedFrom;
      var i :| 0 <= i < |fields| && fields[i].name == name;
      var p := WinnerOfField(shapes, t, i);
    }
    hide Finite, ToFields, FieldsOf, WinsTree, Target, At, DerivedFrom, HasFields, WinnerDerived;
    forall p | WinsTree(shapes, t, p)
      ensures WinnerDerived(env, shapes, t, p, bound, visiting, properties)
      ensures PropertyName(Target(shapes, t, p)) in properties
    {
      WinnerHasProperty(env, shapes, t, p, fields, bound, visiting, properties);
    }
  }

  lemma WinnerHasProperty(env: Types, shapes: Shapes, t: TypeId, p: Path, fields: seq<JsonField>, bound: nat,
      visiting: set<TypeId>, properties: map<string, Json>)
    requires Finite(env) && bound <= |env| && IsStruct(shapes, t) && WinsTree(shapes, t, p)
    requires fields == ToFields(FieldsOf(shapes, t)) && forall f | f in fields :: Fits(env, f, bound)
    requires HasFields(env, fields, bound, visiting, properties)
    ensures WinnerDerived(env, shapes, t, p, bound, visiting, properties)
    ensures PropertyName(Target(shapes, t, p)) in properties
  {
    hide FieldsOf, WinsTree, At, Target, DerivedFrom, Finite, ToFields;
    var i := FieldOfWinner(shapes, t, p);
    assert fields[i] in fields;
  }

  /** A struct's schema requires exactly the winners that the marshaler always writes. */
  lemma RequiredAreWinners(shapes: Shapes, t: TypeId, name: string)
    requires IsStruct(shapes, t)
    ensures name in RequiredNames(ToFields(FieldsOf(shapes, t))) <==>
      exists p :: WinsTree(shapes, t, p) && NamedAlways(At(shapes, t, p, 0, false), name)
  {
    var fields := ToFields(FieldsOf(shapes, t));
    RequiredAre(fields, name);
    hide FieldsOf, WinsTree, At, Target, ToFields, RequiredNames;
    if p :| WinsTree(shapes, t, p) && NamedAlways(At(shapes, t, p, 0, false), name) {
      var i := FieldOfWinner(shapes, t, p);
    }
    if i :| 0 <= i < |fields| && fields[i].name == name && !fields[i].omittable {
      var p := WinnerOfField(shapes, t, i);
      assert NamedAlways(At(shapes, t, p, 0, false), name);
    }
  }

  predicate NamedAlways(c: Candidate, name: string) { c.name == name && !c.omittable }

  /** A winner's field in the list. */
  lemma FieldOfWinner(shapes: Shapes, t: TypeId, p: Path) returns (i: nat)
    requires IsStruct(shapes, t) && WinsTree(shapes, t, p)
    ensures i < |ToFields(FieldsOf(shapes, t))|
      && ToFields(FieldsOf(shapes, t))[i] == ToField(At(shapes, t, p, 0, false))
    ensures At(shapes, t, p, 0, false).name == PropertyName(Target(shapes, t, p))
  {
    CandidateAt(shapes, t, p);
    FieldsFollowEmbeddingRule(shapes, t, At(shapes, t, p, 0, false));
    hide FieldsOf, WinsTree, At, Target;
    var cs := FieldsOf(shapes, t);
    i :| 0 <= i < |cs| && cs[i] == At(shapes, t, p, 0, false);
  }

  /** A field's path to its winner. */
  lemma WinnerOfField(shapes: Shapes, t: TypeId, i: nat) returns (p: Path)
    requires IsStruct(shapes, t) && i < |ToFields(FieldsOf(shapes, t))|
    ensures WinsTree(shapes, t, p) && ToFields(FieldsOf(shapes, t))[i] == ToField(At(shapes, t, p, 0, false))
    ensures At(shapes, t, p, 0, false).name == PropertyName(Target(shapes, t, p))
  {
    var c := FieldsOf(shapes, t)[i];
    FieldsFollowEmbeddingRule(shapes, t, c);
    p :| WinsTree(shapes, t, p) && c == At(shapes, t, p, 0, false);
    CandidateAt(shapes, t, p);
    hide FieldsOf, WinsTree, At, Target;
  }

  lemma FieldsDiffer(shapes: Shapes, t: TypeId)
    requires IsStruct(shapes, t)
    ensures NamesDiffer(ToFields(FieldsOf(shapes, t)))
  {
    var cs := FieldsOf(shapes, t);
    WinnersAreDistinct(Collect(shapes, t, 0, false, {}), Names(Collect(shapes, t, 0, false, {})));
    forall i, j | 0 <= i < j < |cs| ensures ToFields(cs)[i].name != ToFields(cs)[j].name {
      assert cs[i].name != cs[j].name;
    }
  }
}
