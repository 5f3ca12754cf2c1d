/** What publishing under names does to normal forms: the exact condition under which a derived
    document hashes as its draft does, and types for which it does not. */
module PublishingLaws {
  import opened JsonTrees
  import opened Options
  import opened SortedNames
  import opened GoTypes
  import opened SchemaDeriver
  import opened DeriverLaws
  import opened Hash
  import opened HashNaming
  import opened HashHoisting
  import opened Derivation
  import opened DeriveLaws
  import opened SchemaForms
  import opened SharedNames
  import opened Merging

  /** A finished draft is a finished book, and what it publishes is the book merged. */
  lemma DraftMerges(env: Types, d: Drafts)
    requires Complete(env, d)
    ensures var (names, schemas) := (d.book.names, Finished(d.book));
      WholeBook(names, schemas) && PublishedComponents(names, schemas) == MergedComponents(names, schemas)
  {
    hide Emitted, Refs, IsBody;
    var names, schemas := d.book.names, Finished(d.book);
    forall k | k in schemas ensures Held(schemas[k], schemas.Keys) && IsBody(schemas[k]) {
      assert d.book.schemas[k].Some?;
    }
    EmittedMerge(names, schemas);
  }

  lemma EmittedMerge(names: map<string, string>, schemas: Components)
    requires WholeBook(names, schemas) && forall k | k in schemas :: Emitted(schemas[k])
    ensures PublishedComponents(names, schemas) == MergedComponents(names, schemas)
  {
    hide Emitted, WholeBook, RenameRefs, Rename;
    BookKeys(names, schemas);
    var rho := PublicName(names);
    forall n | n in NamesOf(names)
      ensures RenameRefs(schemas[FirstKey(names, n)], rho) == Rename(schemas[FirstKey(names, n)], rho)
    {
      RenameRefsIsRename(schemas[FirstKey(names, n)], rho);
    }
  }

  lemma NoNameCollides(names: map<string, string>, schemas: Components)
    ensures CollidingNames(names, schemas) == {} <==> NoCollision(names, schemas)
  {
    hide NormalOf;
    if NoCollision(names, schemas) {
      forall n | n in NamesOf(names) ensures SameShape(schemas, KeysNamed(names, n)) {
        forall a, b | a in KeysNamed(names, n) && b in KeysNamed(names, n)
          ensures NormalOf(schemas, a) == NormalOf(schemas, b)
        {
          NormalIsForm(schemas, a);
          NormalIsForm(schemas, b);
        }
      }
    }
    if CollidingNames(names, schemas) == {} {
      forall j, k | j in names && k in names && names[j] == names[k]
        ensures FormOf(schemas, RefTo(j)) == FormOf(schemas, RefTo(k))
      {
        assert names[j] in NamesOf(names) && names[j] !in CollidingNames(names, schemas);
        assert SameShape(schemas, KeysNamed(names, names[j]));
        assert j in KeysNamed(names, names[j]) && k in KeysNamed(names, names[j]);
        NormalIsForm(schemas, j);
        NormalIsForm(schemas, k);
      }
    }
  }

  lemma NormalIsForm(schemas: Components, k: string)
    ensures NormalOf(schemas, k) == FormOf(schemas, RefTo(k))
  {
  }

  /** A draft without collisions whose components of one name correspond keeps every component's normal
      form when it is published, exactly when no component reaches another one of its name; and then
      every schema of the draft keeps its normal form. */
  lemma PublishingKeepsNormalForms(env: Types, d: Drafts)
    requires Complete(env, d) && CollidingNames(d.book.names, Finished(d.book)) == {}
    ensures WholeBook(d.book.names, Finished(d.book))
    ensures var (names, schemas) := (d.book.names, Finished(d.book));
      var published := PublishedComponents(names, schemas);
      AllCorrespond(names, schemas) ==>
        && ((forall k | k in names :: NormalOf(published, names[k]) == NormalOf(schemas, k))
            <==> Separate(names, schemas))
        && (Separate(names, schemas) ==> forall v | Held(v, schemas.Keys) ::
              Normalize(RenameRefs(v, PublicName(names)), published, {}) == Normalize(v, schemas, {}))
  {
    hide Emitted, Refs, Normalize, RenameRefs, Rename, MergedComponents, PublishedComponents, BookOk, CollidingNames,
      NoCollision, Separate, WholeBook;
    var names, schemas := d.book.names, Finished(d.book);
    DraftMerges(env, d);
    NoNameCollides(names, schemas);
    if AllCorrespond(names, schemas) {
      FormsAreKeptWhenSeparate(names, schemas);
      forall k | k in names
        ensures NormalOf(MergedComponents(names, schemas), names[k]) == NormalOf(schemas, k)
          <==> Publishes(names, schemas, RefTo(k), {}) == Normalize(RefTo(k), schemas, {})
      {
        RenameRefsOfRef(k, PublicName(names));
        NeverCutAtFirst(schemas, RefTo(k));
        NeverCutAtFirst(MergedComponents(names, schemas), RefTo(names[k]));
      }
      if Separate(names, schemas) {
        forall v | Held(v, schemas.Keys)
          ensures Publishes(names, schemas, v, {}) == Normalize(v, schemas, {})
          ensures RenameRefs(v, PublicName(names)) == Rename(v, PublicName(names))
        {
          RenameRefsIsRename(v, PublicName(names));
        }
      }
    }
  }

  /** In particular every normal form is kept when each key whose name is shared reaches no cycle: when
      no name is shared at all, or only by types that are not recursive. */
  lemma SettledSharingKeepsNormalForms(env: Types, d: Drafts, v: Json)
    requires Complete(env, d) && CollidingNames(d.book.names, Finished(d.book)) == {}
    requires SharedAreSettled(d.book.names, Finished(d.book)) && Held(v, d.book.schemas.Keys)
    ensures var (names, schemas) := (d.book.names, Finished(d.book));
      Normalize(RenameRefs(v, PublicName(names)), PublishedComponents(names, schemas), {}) == Normalize(v, schemas, {})
  {
    hide Emitted, Refs, Normalize, RenameRefs, PublishedComponents, BookOk, CollidingNames;
    var names, schemas := d.book.names, Finished(d.book);
    PublishingKeepsNormalForms(env, d);
    NoNameCollides(names, schemas);
    SettledNamesMerge(names, schemas);
  }

  // ---------------------------------------------------------------- nodes

  /** The schema of a struct with one omittable property. */
  function NodeForm(field: string, inner: Json): Json {
    Obj(map["type" := Str("object"), "properties" := Obj(map[field := inner])])
  }

  /** The same where the property is a pointer to component r. */
  function NodeSchema(field: string, r: string): Json { NodeForm(field, Wrapper(RefTo(r))) }

  lemma FieldKeyword(field: string, inner: Json, schemas: Components, path: set<string>)
    ensures Keyword("properties", Obj(map[field := inner]), schemas, path)
      == Obj(map[field := Normalize(inner, schemas, path).out])
    ensures IsKept("properties", Obj(map[field := inner])) && IsKept("type", Str("object"))
  {
    assert field in map[field := inner];
    KeptKeyword("properties", Obj(map[field := inner]));
    KeptKeyword("type", Str("object"));
  }

  lemma NodeNormal(field: string, inner: Json, schemas: Components, path: set<string>)
    ensures Normalize(NodeForm(field, inner), schemas, path).out
      == NodeForm(field, Normalize(inner, schemas, path).out)
  {
    var form := Normalize(inner, schemas, path).out;
    FieldKeyword(field, inner, schemas, path);
    PlainKeywords(schemas, path);
    hide Normalize, Keyword, IsKept, IsNullableWrapper;
    KeptTwo("type", Str("object"), "properties", Obj(map[field := inner]), schemas, path);
    UnfoldObject(NodeForm(field, inner), NodeForm(field, form).members, schemas, path);
  }

  /** A node whose pointer leads to component r, read where r is and where it is not on the path. */
  lemma PointerNodeNormal(field: string, r: string, schemas: Components, path: set<string>)
    requires r in schemas
    ensures Normalize(NodeSchema(field, r), schemas, path).out == NodeForm(field,
      if r in path then EMPTY else Wrapper(Normalize(schemas[r], schemas, path + {r}).out))
  {
    hide Normalize;
    NodeNormal(field, Wrapper(RefTo(r)), schemas, path);
    WrapperNormal(RefTo(r), schemas, path);
    RefTargetOfName(r);
    NormalizeRef(RefTo(r), r, schemas, path);
  }

  lemma ComponentNormal(r: string, schemas: Components)
    requires r in schemas
    ensures NormalOf(schemas, r) == Normalize(schemas[r], schemas, {r}).out
  {
    hide Normalize;
    RefTargetOfName(r);
    NormalizeRef(RefTo(r), r, schemas, {});
    assert {} + {r} == {r};
  }

  lemma NodeFormsDiffer(field: string, inner: Json)
    ensures NodeForm(field, EMPTY) != NodeForm(field, Wrapper(inner))
  {
    assert NodeForm(field, EMPTY).members["properties"].members[field] == EMPTY;
    assert "type" in Wrapper(inner).members;
    assert NodeForm(field, Wrapper(inner)).members["properties"].members[field] == Wrapper(inner);
  }

  lemma TwoRenamed(x: string, vx: Json, y: string, vy: Json, rho: string -> string)
    requires x != y && x != "$ref" && y != "$ref"
    ensures RenameRefs(Obj(map[x := vx, y := vy]), rho) == Obj(map[x := RenameRefs(vx, rho), y := RenameRefs(vy, rho)])
  {
  }

  lemma NodeRenamed(field: string, inner: Json, rho: string -> string)
    requires field != "$ref"
    ensures RenameRefs(NodeForm(field, inner), rho) == NodeForm(field, RenameRefs(inner, rho))
  {
    assert RenameRefs(Obj(map[field := inner]), rho) == Obj(map[field := RenameRefs(inner, rho)]);
    assert RenameRefs(Str("object"), rho) == Str("object");
    hide RenameRefs;
    assert "type"[0] != "$ref"[0] && "properties"[0] != "$ref"[0];
    TwoRenamed("type", Str("object"), "properties", Obj(map[field := inner]), rho);
  }

  lemma PointerNodeRenamed(field: string, r: string, rho: string -> string)
    requires field != "$ref"
    ensures RenameRefs(NodeSchema(field, r), rho) == NodeSchema(field, rho(r))
  {
    hide RenameRefs;
    RenameRefsOfRef(r, rho);
    WrapperRenamed(RefTo(r), rho);
    NodeRenamed(field, Wrapper(RefTo(r)), rho);
  }

  // ---------------------------------------------------------------- nodes as Go types

  /** A named struct with one omittable property. */
  function NodeType(qualified: string, component: string, field: string, typ: TypeId): GoType {
    GoType(Struct([JsonField(field, typ, false, true)], false), component, qualified, component,
      false, false, false, false)
  }

  function PointerType(elem: TypeId): GoType { GoType(Pointer(elem), "", "", "", false, false, false, false) }

  const ANY := GoType(InterfaceKind, "", "", "", false, false, false, false)

  function Starting(book: Book, key: string, t: TypeId, component: string): Book {
    Book(book.schemas[key := None], book.types[key := t], book.names[key := component])
  }

  function Finishing(book: Book, key: string, schema: Json): Book {
    book.(schemas := book.schemas[key := Some(schema)])
  }

  lemma NodeDerived(env: Types, t: TypeId, visiting: set<TypeId>, book: Book,
      qualified: string, component: string, field: string, typ: TypeId)
    requires Finite(env) && t < |env| && env[t] == NodeType(qualified, component, field, typ) && typ < |env|
    requires component != "" && qualified !in book.schemas
    ensures var (inner, b) := SchemaOf(env, typ, {}, Starting(book, qualified, t, component));
      SchemaOf(env, t, visiting, book) == (RefTo(qualified), Finishing(b, qualified, NodeForm(field, inner)))
  {
    var f := JsonField(field, typ, false, true);
    var started := Starting(book, qualified, t, component);
    var (inner, b) := SchemaOf(env, typ, {}, started);
    assert Fits(env, f, |env|);
    PropertyAlone(env, f, started);
    assert ObjectSchema(map[field := inner], []) == NodeForm(field, inner) by {
      assert field in map[field := inner];
    }
    assert RequiredNames([f]) == [];
  }

  lemma PropertyAlone(env: Types, f: JsonField, book: Book)
    requires Finite(env) && Fits(env, f, |env|) && !f.quoted
    ensures PropertiesOf(env, [f], |env|, {}, book, map[])
      == var (s, b) := SchemaOf(env, f.typ, {}, book); (map[f.name := s], b)
  {
    hide SchemaOf;
    var (s, b) := PropertyOf(env, f, |env|, {}, book);
    assert PropertiesOf(env, [], |env|, {}, b, map[][f.name := s]) == (map[f.name := s], b);
    assert [f][1..] == [];
  }

  lemma KnownDerived(env: Types, t: TypeId, visiting: set<TypeId>, book: Book,
      qualified: string, component: string, field: string, typ: TypeId)
    requires Finite(env) && t < |env| && env[t] == NodeType(qualified, component, field, typ)
    requires component != "" && qualified in book.schemas
    ensures SchemaOf(env, t, visiting, book) == (RefTo(qualified), book)
  {
  }

  lemma PointerDerived(env: Types, t: TypeId, elem: TypeId, visiting: set<TypeId>, book: Book, key: string)
    requires Finite(env) && t < |env| && env[t] == PointerType(elem) && elem < |env|
    requires SchemaOf(env, elem, visiting, book).0 == RefTo(key)
    ensures SchemaOf(env, t, visiting, book) == (Wrapper(RefTo(key)), SchemaOf(env, elem, visiting, book).1)
  {
  }

  // ---------------------------------------------------------------- two types that point at each other

  /** Derive publishes these drafts, and the first request's normal form is not the drafted one. */
  ghost predicate PublishesAnotherForm(d: Drafts) {
    var (names, schemas) := (d.book.names, Finished(d.book));
    && CollidingNames(names, schemas) == {} && names.Keys <= schemas.Keys && d.requests != []
    && var doc := PublishedDocument(d, true);
    Normalize(doc.requests[0].request, doc.components, {}).out != Normalize(d.requests[0].request, schemas, {}).out
  }

  lemma ComponentChanges(d: Drafts, key: string, published: Components)
    requires d.requests != [] && d.requests[0].request == RefTo(key) && key in d.book.names
    requires CollidingNames(d.book.names, Finished(d.book)) == {} && d.book.names.Keys <= Finished(d.book).Keys
    requires published == PublishedComponents(d.book.names, Finished(d.book))
    requires NormalOf(published, d.book.names[key]) != NormalOf(Finished(d.book), key)
    ensures PublishesAnotherForm(d)
  {
    hide Normalize, RenameRefs, PublishedComponents, CollidingNames;
    RenameRefsOfRef(key, PublicName(d.book.names));
  }


  /** Two structs A { next *B } and B { next *A } with one component name. */
  function PairTypes(a: string, b: string, name: string): Types {
    [NodeType(a, name, "next", 3), NodeType(b, name, "next", 2), PointerType(0), PointerType(1)]
  }

  lemma PairIsFinite(a: string, b: string, name: string)
    requires a != "" && b != "" && name != ""
    ensures Finite(PairTypes(a, b, name))
  {
    var env := PairTypes(a, b, name);
    forall t: TypeId | t < |env| && !IsLeaf(env, t) ensures NeedsEarlier(env, t) {
      assert t == 0 || t == 1 || t == 2 || t == 3;
    }
  }

  function PairSchemas(a: string, b: string): Components {
    map[a := NodeSchema("next", b), b := NodeSchema("next", a)]
  }

  lemma PairDerived(env: Types, a: string, b: string, name: string)
    requires a != b && a != "" && b != "" && name != "" && env == PairTypes(a, b, name)
    ensures Finite(env)
    ensures var (s, book) := SchemaOf(env, 0, {}, NEW_BOOK);
      s == RefTo(a) && book.names == map[a := name, b := name]
      && book.schemas == map[a := Some(NodeSchema("next", b)), b := Some(NodeSchema("next", a))]
  {
    PairIsFinite(a, b, name);
    TwoDerived(env, a, b, name, "next");
  }

  lemma TwoDerived(env: Types, a: string, b: string, name: string, field: string)
    requires Finite(env) && |env| == 4 && a != b && name != ""
    requires env[0] == NodeType(a, name, field, 3) && env[1] == NodeType(b, name, field, 2)
    requires env[2] == PointerType(0) && env[3] == PointerType(1)
    ensures var (s, book) := SchemaOf(env, 0, {}, NEW_BOOK);
      s == RefTo(a) && book.names == map[a := name, b := name]
      && book.schemas == map[a := Some(NodeSchema(field, b)), b := Some(NodeSchema(field, a))]
  {
    hide SchemaOf, Finite, NodeType, PointerType, NodeForm, Wrapper, RefTo;
    var one := Starting(NEW_BOOK, a, 0, name);
    NodeDerived(env, 0, {}, NEW_BOOK, a, name, field, 3);
    SecondDerived(env, a, b, name, field, one);
    PointerDerived(env, 3, 1, {}, one, b);
  }

  lemma SecondDerived(env: Types, a: string, b: string, name: string, field: string, book: Book)
    requires Finite(env) && |env| == 4 && a in book.schemas && b !in book.schemas && name != ""
    requires env[0] == NodeType(a, name, field, 3) && env[1] == NodeType(b, name, field, 2) && env[2] == PointerType(0)
    ensures var (s, after) := SchemaOf(env, 1, {}, book);
      s == RefTo(b) && after.names == book.names[b := name]
      && after.schemas == book.schemas[b := Some(NodeSchema(field, a))]
  {
    hide SchemaOf, Finite, NodeType, PointerType, NodeForm, Wrapper, RefTo;
    var started := Starting(book, b, 1, name);
    NodeDerived(env, 1, {}, book, b, name, field, 2);
    KnownDerived(env, 0, {}, started, a, name, field, 3);
    PointerDerived(env, 2, 0, {}, started, a);
  }

  lemma PairFinished(a: string, b: string, book: Book)
    requires book.schemas == map[a := Some(NodeSchema("next", b)), b := Some(NodeSchema("next", a))]
    ensures Finished(book) == PairSchemas(a, b)
  {
    hide NodeForm;
  }

  /** One request that no response follows. */
  lemma OneRequestDrafted(env: Types, topic: string, version: string, t: TypeId)
    requires Finite(env) && t < |env| && !IsReserved(topic)
    ensures TypesInRange(env, [Declared(topic, version, t, None)]) && TypesInRange(env, [])
    ensures var (s, book) := SchemaOf(env, t, {}, NEW_BOOK);
      Draft(env, [Declared(topic, version, t, None)], Outbound([], []))
        == Drafts([Entry(topic, version, s, None)], [], [], book)
  {
    hide SchemaOf, Finite;
    var ds := [Declared(topic, version, t, None)];
    assert ds[1..] == [];
    var (s, book) := SchemaOf(env, t, {}, NEW_BOOK);
    var entry := Entry(topic, version, s, None);
    assert DraftEntry(env, RequestRole, ds[0], NEW_BOOK) == (entry, book);
    assert [] + [entry] == [entry];
    assert DraftEntries(env, RequestRole, [], book, [] + [entry]) == ([entry], book);
  }

  lemma PairForms(a: string, b: string)
    requires a != b
    ensures var schemas := PairSchemas(a, b);
      NormalOf(schemas, a) == NormalOf(schemas, b) == NodeForm("next", Wrapper(NodeForm("next", EMPTY)))
  {
    hide Normalize;
    var schemas := PairSchemas(a, b);
    ComponentNormal(a, schemas);
    ComponentNormal(b, schemas);
    PointerNodeNormal("next", b, schemas, {a});
    PointerNodeNormal("next", a, schemas, {a} + {b});
    PointerNodeNormal("next", a, schemas, {b});
    PointerNodeNormal("next", b, schemas, {b} + {a});
  }

  lemma PairMerged(a: string, b: string, name: string)
    requires a != b
    ensures PublishedComponents(map[a := name, b := name], PairSchemas(a, b)) == map[name := NodeSchema("next", name)]
  {
    assert "next"[0] != "$ref"[0];
    hide RenameRefs, NodeForm, Wrapper, RefTo;
    var names := map[a := name, b := name];
    var rho := PublicName(names);
    PointerNodeRenamed("next", a, rho);
    PointerNodeRenamed("next", b, rho);
    assert names[a] == name;
    assert NamesOf(names) == {name};
  }

  lemma SelfForm(name: string)
    ensures NormalOf(map[name := NodeSchema("next", name)], name) == NodeForm("next", EMPTY)
  {
    hide Normalize;
    var schemas := map[name := NodeSchema("next", name)];
    ComponentNormal(name, schemas);
    PointerNodeNormal("next", name, schemas, {name});
  }

  /** Two types that point at each other have one shape from outside, so sharing a name is no
      collision; but merged under it they become one type pointing at itself, whose cycle is cut one
      step earlier. */
  lemma MergingCanChangeNormalForm(a: string, b: string, name: string, topic: string, version: string)
    requires a != b && a != "" && b != "" && name != "" && !IsReserved(topic)
    ensures var env := PairTypes(a, b, name);
      var requests := [Declared(topic, version, 0, None)];
      && Finite(env) && TypesInRange(env, requests) && TypesInRange(env, [])
      && var d := Draft(env, requests, Outbound([], []));
      && d.book.names == map[a := name, b := name] && Finished(d.book) == PairSchemas(a, b)
      && PublishesAnotherForm(d)
  {
    var names, schemas := map[a := name, b := name], PairSchemas(a, b);
    assert names.Keys == schemas.Keys;
    hide Normalize, SchemaOf, Finite, Draft, NodeForm, Wrapper, RefTo, PublishedComponents, PairSchemas,
      PublishesAnotherForm;
    var env := PairTypes(a, b, name);
    PairDerived(env, a, b, name);
    PairFinished(a, b, SchemaOf(env, 0, {}, NEW_BOOK).1);
    OneRequestDrafted(env, topic, version, 0);
    PairForms(a, b);
    PairHasNoCollision(a, b, name, schemas);
    PairMerged(a, b, name);
    SelfForm(name);
    NodeFormsDiffer("next", NodeForm("next", EMPTY));
    var d := Draft(env, [Declared(topic, version, 0, None)], Outbound([], []));
    ComponentChanges(d, a, map[name := NodeSchema("next", name)]);
  }

  lemma PairHasNoCollision(a: string, b: string, name: string, schemas: Components)
    requires a != b && NormalOf(schemas, a) == NormalOf(schemas, b)
    ensures CollidingNames(map[a := name, b := name], schemas) == {}
  {
    hide NormalOf;
    var names := map[a := name, b := name];
    forall n | n in NamesOf(names) ensures SameShape(schemas, KeysNamed(names, n)) {
      assert KeysNamed(names, n) <= {a, b};
    }
  }

  // ---------------------------------------------------------------- separate names are not enough

  /** The keys and the component names of four structs. */
  datatype Quad = Quad(p: string, k: string, f: string, q: string, pn: string, n: string, qn: string)

  ghost predicate Proper(t: Quad) {
    && t.p != "" && t.k != "" && t.f != "" && t.q != "" && t.pn != "" && t.n != "" && t.qn != ""
    && t.p != t.k && t.p != t.f && t.p != t.q && t.k != t.f && t.k != t.q && t.f != t.q
    && t.pn != t.n && t.pn != t.qn && t.n != t.qn
  }

  /** p { x *k }, k { y *p }, f { y *q } and q { x any }, where k and f share a component name. */
  function QuadTypes(t: Quad, x: string, y: string): Types {
    [NodeType(t.p, t.pn, x, 4), NodeType(t.k, t.n, y, 5), NodeType(t.f, t.n, y, 6), NodeType(t.q, t.qn, x, 7),
     PointerType(1), PointerType(0), PointerType(3), ANY]
  }

  function QuadSchemas(t: Quad, x: string, y: string): Components {
    map[t.p := NodeSchema(x, t.k), t.k := NodeSchema(y, t.p), t.f := NodeSchema(y, t.q), t.q := NodeForm(x, EMPTY)]
  }

  function QuadNames(t: Quad): map<string, string> {
    map[t.p := t.pn, t.k := t.n, t.f := t.n, t.q := t.qn]
  }

  function QuadMerged(t: Quad, x: string, y: string): Components {
    map[t.pn := NodeSchema(x, t.n), t.n := NodeSchema(y, t.qn), t.qn := NodeForm(x, EMPTY)]
  }

  lemma QuadForms(t: Quad, x: string, y: string)
    requires Proper(t)
    ensures var schemas := QuadSchemas(t, x, y);
      && NormalOf(schemas, t.p) == NodeForm(x, Wrapper(NodeForm(y, EMPTY)))
      && NormalOf(schemas, t.k) == NodeForm(y, Wrapper(NodeForm(x, EMPTY))) == NormalOf(schemas, t.f)
  {
    hide Normalize, NodeForm, Wrapper, RefTo;
    var schemas := QuadSchemas(t, x, y);
    ComponentNormal(t.p, schemas);
    ComponentNormal(t.k, schemas);
    ComponentNormal(t.f, schemas);
    PointerNodeNormal(x, t.k, schemas, {t.p});
    PointerNodeNormal(y, t.p, schemas, {t.p} + {t.k});
    PointerNodeNormal(y, t.p, schemas, {t.k});
    PointerNodeNormal(x, t.k, schemas, {t.k} + {t.p});
    PointerNodeNormal(y, t.q, schemas, {t.f});
    NodeNormal(x, EMPTY, schemas, {t.f} + {t.q});
    EmptyNormal(schemas, {t.f} + {t.q});
  }

  lemma EmptyNormal(schemas: Components, path: set<string>)
    ensures Normalize(EMPTY, schemas, path).out == EMPTY
  {
    var none: map<string, Json> := map[];
    assert (map key | key in none && IsKept(key, none[key]) :: Keyword(key, none[key], schemas, path)) == map[];
  }

  lemma MergedForm(t: Quad, x: string, y: string)
    requires Proper(t)
    ensures NormalOf(QuadMerged(t, x, y), t.pn) == NodeForm(x, Wrapper(NodeForm(y, Wrapper(NodeForm(x, EMPTY)))))
  {
    hide Normalize, NodeForm, Wrapper, RefTo;
    var schemas := QuadMerged(t, x, y);
    ComponentNormal(t.pn, schemas);
    PointerNodeNormal(x, t.n, schemas, {t.pn});
    PointerNodeNormal(y, t.qn, schemas, {t.pn} + {t.n});
    NodeNormal(x, EMPTY, schemas, {t.pn} + {t.n} + {t.qn});
    EmptyNormal(schemas, {t.pn} + {t.n} + {t.qn});
  }

  lemma FormsAtPDiffer(x: string, y: string)
    ensures NodeForm(x, Wrapper(NodeForm(y, EMPTY))) != NodeForm(x, Wrapper(NodeForm(y, Wrapper(NodeForm(x, EMPTY)))))
  {
    NodeFormsDiffer(y, NodeForm(x, EMPTY));
    NodeInside(x, Wrapper(NodeForm(y, EMPTY)));
    NodeInside(x, Wrapper(NodeForm(y, Wrapper(NodeForm(x, EMPTY)))));
    WrapperInside(NodeForm(y, EMPTY));
    WrapperInside(NodeForm(y, Wrapper(NodeForm(x, EMPTY))));
  }

  lemma NodeInside(field: string, inner: Json)
    ensures var m := NodeForm(field, inner).members;
      "properties" in m && m["properties"] == Obj(map[field := inner]) && m["properties"].members[field] == inner
  {
  }

  lemma WrapperInside(inner: Json)
    ensures "allOf" in Wrapper(inner).members && Wrapper(inner).members["allOf"].items[0] == inner
  {
  }

  lemma LeastOfTwo(f: string, k: string)
    requires CodePointLess(f, k)
    ensures Least({f, k}) == f
  {
    hide CodePointLess;
    var ns := SortedListing({f, k});
    assert f in ns;
    var i :| 0 <= i < |ns| && ns[i] == f;
    if Least({f, k}) == k {
      StrictTotal(f, k, k);
      assert false;
    }
  }

  lemma QuadIsMerged(t: Quad, x: string, y: string)
    requires Proper(t) && x != "$ref" && y != "$ref" && CodePointLess(t.f, t.k)
    ensures PublishedComponents(QuadNames(t), QuadSchemas(t, x, y)) == QuadMerged(t, x, y)
  {
    hide RenameRefs, NodeForm, Wrapper, RefTo, CodePointLess, Least;
    var names, schemas := QuadNames(t), QuadSchemas(t, x, y);
    var rho := PublicName(names);
    PointerNodeRenamed(x, t.k, rho);
    PointerNodeRenamed(y, t.q, rho);
    NodeRenamed(x, EMPTY, rho);
    EmptyRenamed(rho);
    assert names[t.p] == t.pn && names[t.f] == t.n && names[t.q] == t.qn;
    assert NamesOf(names) == {t.pn, t.n, t.qn};
    assert KeysNamed(names, t.n) == {t.f, t.k};
    LeastOfTwo(t.f, t.k);
    assert FirstKey(names, t.pn) == t.p && FirstKey(names, t.n) == t.f && FirstKey(names, t.qn) == t.q;
  }

  lemma EmptyRenamed(rho: string -> string)
    ensures RenameRefs(EMPTY, rho) == EMPTY
  {
  }

  lemma QuadIsFinite(t: Quad, x: string, y: string)
    requires Proper(t)
    ensures Finite(QuadTypes(t, x, y))
  {
    var env := QuadTypes(t, x, y);
    forall i: TypeId | i < |env| && !IsLeaf(env, i) ensures NeedsEarlier(env, i) {
      if i < 4 {
        assert Hoistable(env[i]);
      } else {
        assert i == 4 || i == 5 || i == 6;
      }
    }
    hide IsLeaf, NeedsEarlier;
  }

  /** The cycle p, k as it is derived. */
  lemma CycleDerived(env: Types, t: Quad, x: string, y: string)
    requires Proper(t) && env == QuadTypes(t, x, y) && Finite(env)
    ensures var (s, book) := SchemaOf(env, 0, {}, NEW_BOOK);
      s == RefTo(t.p) && book.names == map[t.p := t.pn, t.k := t.n]
      && book.schemas == map[t.p := Some(NodeSchema(x, t.k)), t.k := Some(NodeSchema(y, t.p))]
  {
    hide SchemaOf, Finite, NodeType, PointerType, NodeForm, Wrapper, RefTo;
    var one := Starting(NEW_BOOK, t.p, 0, t.pn);
    NodeDerived(env, 0, {}, NEW_BOOK, t.p, t.pn, x, 4);
    BackDerived(env, t, x, y, one);
    PointerDerived(env, 4, 1, {}, one, t.k);
  }

  lemma BackDerived(env: Types, t: Quad, x: string, y: string, book: Book)
    requires Proper(t) && env == QuadTypes(t, x, y) && Finite(env) && t.p in book.schemas && t.k !in book.schemas
    ensures var (s, after) := SchemaOf(env, 1, {}, book);
      s == RefTo(t.k) && after.names == book.names[t.k := t.n]
      && after.schemas == book.schemas[t.k := Some(NodeSchema(y, t.p))]
  {
    hide SchemaOf, Finite, NodeType, PointerType, NodeForm, Wrapper, RefTo;
    var started := Starting(book, t.k, 1, t.n);
    NodeDerived(env, 1, {}, book, t.k, t.n, y, 5);
    KnownDerived(env, 0, {}, started, t.p, t.pn, x, 4);
    PointerDerived(env, 5, 0, {}, started, t.p);
  }

  /** The rest, f and q, as it is derived after them. */
  lemma TailDerived(env: Types, t: Quad, x: string, y: string, book: Book)
    requires Proper(t) && env == QuadTypes(t, x, y) && Finite(env) && book.schemas.Keys == {t.p, t.k}
    ensures var (s, after) := SchemaOf(env, 2, {}, book);
      s == RefTo(t.f) && after.names == book.names[t.f := t.n][t.q := t.qn]
      && after.schemas == book.schemas[t.f := Some(NodeSchema(y, t.q))][t.q := Some(NodeForm(x, EMPTY))]
  {
    hide SchemaOf, Finite, NodeType, PointerType, NodeForm, Wrapper, RefTo;
    var one := Starting(book, t.f, 2, t.n);
    NodeDerived(env, 2, {}, book, t.f, t.n, y, 6);
    EndDerived(env, t, x, y, one);
    PointerDerived(env, 6, 3, {}, one, t.q);
  }

  lemma EndDerived(env: Types, t: Quad, x: string, y: string, book: Book)
    requires Proper(t) && env == QuadTypes(t, x, y) && Finite(env) && t.q !in book.schemas
    ensures var (s, after) := SchemaOf(env, 3, {}, book);
      s == RefTo(t.q) && after.names == book.names[t.q := t.qn]
      && after.schemas == book.schemas[t.q := Some(NodeForm(x, EMPTY))]
  {
    var started := Starting(book, t.q, 3, t.qn);
    AnyDerived(env, 7, {}, started);
    NodeDerived(env, 3, {}, book, t.q, t.qn, x, 7);
  }

  lemma AnyDerived(env: Types, t: TypeId, visiting: set<TypeId>, book: Book)
    requires Finite(env) && t < |env| && env[t] == ANY
    ensures SchemaOf(env, t, visiting, book) == (EMPTY, book)
  {
  }

  lemma TwoRequestsDrafted(env: Types, topic: string, version: string, t: TypeId, u: TypeId)
    requires Finite(env) && t < |env| && u < |env| && !IsReserved(topic)
    ensures var ds := [Declared(topic, version, t, None), Declared(topic, version, u, None)];
      && TypesInRange(env, ds) && TypesInRange(env, [])
      && var (s, b) := SchemaOf(env, t, {}, NEW_BOOK);
      var (r, book) := SchemaOf(env, u, {}, b);
      Draft(env, ds, Outbound([], []))
        == Drafts([Entry(topic, version, s, None), Entry(topic, version, r, None)], [], [], book)
  {
    hide SchemaOf, Finite;
    var ds := [Declared(topic, version, t, None), Declared(topic, version, u, None)];
    assert ds[1..] == [ds[1]] && ds[1..][1..] == [];
    var (s, b) := SchemaOf(env, t, {}, NEW_BOOK);
    var (r, book) := SchemaOf(env, u, {}, b);
    var e0, e1 := Entry(topic, version, s, None), Entry(topic, version, r, None);
    assert DraftEntry(env, RequestRole, ds[0], NEW_BOOK) == (e0, b);
    assert DraftEntry(env, RequestRole, ds[1], b) == (e1, book);
    assert [e0] + [e1] == [e0, e1];
    assert DraftEntries(env, RequestRole, [], book, [e0] + [e1]) == ([e0, e1], book);
    assert [] + [e0] == [e0] && [ds[1]][1..] == [] && [ds[1]][0] == ds[1];
    assert DraftEntries(env, RequestRole, [ds[1]], b, [e0]) == ([e0, e1], book);
  }

  lemma NodeRefs(field: string, inner: Json)
    ensures Refs(NodeForm(field, inner)) == Refs(inner)
  {
    var v := NodeForm(field, inner);
    assert v.members.Keys == {"type", "properties"};
    assert KeywordRefs("type", v.members["type"]) == {};
    var ps := v.members["properties"];
    assert field in ps.members && ps.members.Keys == {field};
    assert KeywordRefs("properties", ps) == Refs(inner);
    assert Refs(v) == KeywordRefs("type", v.members["type"]) + KeywordRefs("properties", ps);
  }

  lemma PointerRefs(field: string, r: string)
    ensures Refs(NodeSchema(field, r)) == {r}
  {
    NodeRefs(field, Wrapper(RefTo(r)));
    RefTargetOfName(r);
    assert Held(RefTo(r), {r}) by { HeldRef(r, {r}); }
    HeldWrapper(RefTo(r), {r});
    var w := Wrapper(RefTo(r));
    assert w.members["allOf"].items[0] == RefTo(r);
    assert r in KeywordRefs("allOf", w.members["allOf"]);
  }

  /** What is reached from inside a closed set of components is inside. */
  lemma {:induction false} StaysInside(schemas: Components, inside: set<string>, p: seq<string>)
    requires forall k | k in inside && k in schemas :: Refs(schemas[k]) <= inside
    requires IsChain(schemas, p) && p[0] in inside
    ensures p[|p| - 1] in inside
    decreases |p|
  {
    hide Refs;
    assert p[1] in Refs(schemas[p[0]]);
    if |p| > 2 {
      StaysInside(schemas, inside, p[1..]);
    }
  }

  lemma QuadIsSeparate(t: Quad, x: string, y: string)
    requires Proper(t)
    ensures Separate(QuadNames(t), QuadSchemas(t, x, y))
  {
    hide Refs, NodeForm, Wrapper, RefTo;
    var names, schemas := QuadNames(t), QuadSchemas(t, x, y);
    PointerRefs(x, t.k);
    PointerRefs(y, t.p);
    PointerRefs(y, t.q);
    NodeRefs(x, EMPTY);
    NoRefs();
    forall j, k | j in names && k in names && names[j] == names[k] && Reaches(schemas, j, k) ensures j == k {
      var p :| IsChain(schemas, p) && p[0] == j && p[|p| - 1] == k;
      StaysInside(schemas, if j in {t.p, t.k} then {t.p, t.k} else {t.f, t.q}, p);
    }
  }

  lemma NoRefs()
    ensures Refs(EMPTY) == {}
  {
  }

  lemma QuadDraft(t: Quad, x: string, y: string, topic: string, version: string)
    requires Proper(t) && !IsReserved(topic)
    ensures var env := QuadTypes(t, x, y);
      var requests := [Declared(topic, version, 0, None), Declared(topic, version, 2, None)];
      && Finite(env) && TypesInRange(env, requests) && TypesInRange(env, [])
      && var d := Draft(env, requests, Outbound([], []));
      && d.book.names == QuadNames(t) && Finished(d.book) == QuadSchemas(t, x, y)
      && |d.requests| == 2 && d.requests[0].request == RefTo(t.p)
  {
    hide SchemaOf, Finite, Draft, NodeForm, Wrapper, RefTo;
    var env := QuadTypes(t, x, y);
    QuadIsFinite(t, x, y);
    CycleDerived(env, t, x, y);
    TailDerived(env, t, x, y, SchemaOf(env, 0, {}, NEW_BOOK).1);
    TwoRequestsDrafted(env, topic, version, 0, 2);
  }

  /** Without correspondence, separate names do not keep normal forms: k and f have one shape because
      the cycle of k is cut exactly where q holds any value. Derive publishes f for both, p then points
      at f, where nothing is cut, and p's normal form is not the drafted one. */
  lemma SeparateNamesCanChangeNormalForm(t: Quad, topic: string, version: string)
    requires Proper(t) && CodePointLess(t.f, t.k) && !IsReserved(topic)
    ensures var env := QuadTypes(t, "x", "y");
      var requests := [Declared(topic, version, 0, None), Declared(topic, version, 2, None)];
      && Finite(env) && TypesInRange(env, requests) && TypesInRange(env, [])
      && var d := Draft(env, requests, Outbound([], []));
      && Separate(d.book.names, Finished(d.book)) && PublishesAnotherForm(d)
  {
    hide *;
    QuadDraft(t, "x", "y", topic, version);
    var requests := [Declared(topic, version, 0, None), Declared(topic, version, 2, None)];
    QuadChanges(t, "x", "y", Draft(QuadTypes(t, "x", "y"), requests, Outbound([], [])));
    QuadIsSeparate(t, "x", "y");
  }

  lemma QuadChanges(t: Quad, x: string, y: string, d: Drafts)
    requires Proper(t) && CodePointLess(t.f, t.k) && x != "$ref" && y != "$ref"
    requires d.book.names == QuadNames(t) && Finished(d.book) == QuadSchemas(t, x, y)
    requires d.requests != [] && d.requests[0].request == RefTo(t.p)
    ensures PublishesAnotherForm(d)
  {
    var names, schemas := QuadNames(t), QuadSchemas(t, x, y);
    assert names.Keys == schemas.Keys && t.p in names && names[t.p] == t.pn;
    hide *;
    QuadForms(t, x, y);
    QuadIsMerged(t, x, y);
    MergedForm(t, x, y);
    FormsAtPDiffer(x, y);
    QuadHasNoCollision(t, schemas);
    ComponentChanges(d, t.p, QuadMerged(t, x, y));
  }

  lemma QuadHasNoCollision(t: Quad, schemas: Components)
    requires Proper(t) && NormalOf(schemas, t.k) == NormalOf(schemas, t.f)
    ensures CollidingNames(QuadNames(t), schemas) == {}
  {
    hide NormalOf;
    var names := QuadNames(t);
    forall n | n in NamesOf(names) ensures SameShape(schemas, KeysNamed(names, n)) {
      assert KeysNamed(names, n) <= {t.p, t.k, t.f, t.q};
    }
  }

  // ---------------------------------------------------------------- correspondence is not needed

  lemma NodeHeld(field: string, inner: Json, keys: set<string>)
    requires Held(inner, keys)
    ensures Held(NodeForm(field, inner), keys) && IsBody(NodeForm(field, inner))
  {
    var properties := map[field := inner];
    assert field in properties;
    assert NodeForm(field, inner) == ObjectSchema(properties, []);
    HeldObject(properties, [], keys);
  }

  /** k { next *k } beside f { next any }. */
  function MixedSchemas(k: string, f: string): Components {
    map[k := NodeSchema("next", k), f := NodeForm("next", EMPTY)]
  }

  lemma MixedForms(k: string, f: string, n: string, schemas: Components)
    requires k != f && schemas == MixedSchemas(k, f)
    ensures NormalOf(schemas, k) == NormalOf(schemas, f) == NodeForm("next", EMPTY)
  {
    hide Normalize, NodeForm, Wrapper, RefTo;
    ComponentNormal(k, schemas);
    ComponentNormal(f, schemas);
    PointerNodeNormal("next", k, schemas, {k});
    NodeNormal("next", EMPTY, schemas, {f});
    EmptyNormal(schemas, {f});
  }

  lemma MixedMerged(k: string, f: string, n: string, names: map<string, string>, schemas: Components)
    requires k != f && names == map[k := n, f := n] && schemas == MixedSchemas(k, f)
    ensures NormalOf(PublishedComponents(names, schemas), n) == NodeForm("next", EMPTY)
  {
    assert "next"[0] != "$ref"[0];
    hide Normalize, NodeForm, Wrapper, RefTo, RenameRefs;
    var rho := PublicName(names);
    assert names[k] == n;
    var published := PublishedComponents(names, schemas);
    PointerNodeRenamed("next", k, rho);
    NodeRenamed("next", EMPTY, rho);
    EmptyRenamed(rho);
    assert published[n] == NodeSchema("next", n) || published[n] == NodeForm("next", EMPTY);
    ComponentNormal(n, published);
    PointerNodeNormal("next", n, published, {n});
    NodeNormal("next", EMPTY, published, {n});
    EmptyNormal(published, {n});
  }

  lemma MixedBook(k: string, f: string, names: map<string, string>, schemas: Components)
    requires k != f && names.Keys == {k, f}
    requires schemas == MixedSchemas(k, f)
    ensures WholeBook(names, schemas) && SettledKey(schemas, f) && Refs(schemas[k]) == {k}
  {
    PointerRefs("next", k);
    NodeRefs("next", EMPTY);
    NoRefs();
    HeldRef(k, {k});
    HeldWrapper(RefTo(k), {k});
    NodeHeld("next", Wrapper(RefTo(k)), {k});
    EmptyIsHeld();
    NodeHeld("next", EMPTY, {});
    LeafIsSettled(f, schemas);
  }

  lemma EmptyIsHeld()
    ensures Held(EMPTY, {})
  {
    HeldScalar("", "", {});
  }

  lemma LeafIsSettled(f: string, schemas: Components)
    requires f in schemas && Refs(schemas[f]) == {}
    ensures SettledKey(schemas, f)
  {
    hide Refs;
    forall c | Reaches(schemas, f, c) ensures false {
      var r := ReachesFirst(schemas, f, c);
    }
  }

  ghost predicate PublishingKeepsForms(names: map<string, string>, schemas: Components) {
    && names.Keys <= schemas.Keys
    && forall j | j in names :: NormalOf(PublishedComponents(names, schemas), names[j]) == NormalOf(schemas, j)
  }

  /** Nor is correspondence needed: a cycle that is cut where another type of its name holds any value
      can leave every form as it was. */
  lemma FormsCanBeKeptWithoutCorrespondence(k: string, f: string, n: string)
    requires k != f
    ensures var (names, schemas) := (map[k := n, f := n], MixedSchemas(k, f));
      && WholeBook(names, schemas) && NoCollision(names, schemas) && !AllCorrespond(names, schemas)
      && PublishingKeepsForms(names, schemas)
  {
    MixedAgree(k, f, n, map[k := n, f := n], MixedSchemas(k, f));
  }

  lemma MixedAgree(k: string, f: string, n: string, names: map<string, string>, schemas: Components)
    requires k != f && names == map[k := n, f := n] && schemas == MixedSchemas(k, f)
    ensures WholeBook(names, schemas) && NoCollision(names, schemas) && !AllCorrespond(names, schemas)
    ensures PublishingKeepsForms(names, schemas)
  {
    MixedBook(k, f, names, schemas);
    assert NoCollision(names, schemas) && PublishingKeepsForms(names, schemas) by {
      hide *;
      MixedKeeps(k, f, n, names, schemas);
    }
    hide *;
    ReachesStep(schemas, k, k);
    UnsettledBesideSettled(names, schemas, k, f);
  }

  lemma MixedKeeps(k: string, f: string, n: string, names: map<string, string>, schemas: Components)
    requires k != f && names == map[k := n, f := n] && schemas == MixedSchemas(k, f)
    ensures NoCollision(names, schemas) && PublishingKeepsForms(names, schemas)
  {
    assert names.Keys == {k, f} && names[k] == n && names[f] == n && names.Keys == schemas.Keys;
    MixedMerged(k, f, n, names, schemas);
    hide MixedSchemas, NormalOf, PublishedComponents, NodeForm, NoCollision;
    MixedForms(k, f, n, schemas);
    SameFormsDoNotCollide(names, schemas, k, f);
    OneFormIsKept(names, schemas, n, NodeForm("next", EMPTY));
  }

  lemma OneFormIsKept(names: map<string, string>, schemas: Components, n: string, form: Json)
    requires names.Keys <= schemas.Keys && forall j | j in names :: names[j] == n && NormalOf(schemas, j) == form
    requires NormalOf(PublishedComponents(names, schemas), n) == form
    ensures PublishingKeepsForms(names, schemas)
  {
    hide NormalOf, PublishedComponents;
  }

  lemma SameFormsDoNotCollide(names: map<string, string>, schemas: Components, k: string, f: string)
    requires names.Keys == {k, f} && NormalOf(schemas, k) == NormalOf(schemas, f)
    ensures NoCollision(names, schemas)
  {
    hide FormOf, NormalOf;
    NormalIsForm(schemas, k);
    NormalIsForm(schemas, f);
  }

  /** A component on a cycle does not correspond to one of its name that reaches none. */
  lemma UnsettledBesideSettled(names: map<string, string>, schemas: Components, k: string, f: string)
    requires WholeBook(names, schemas) && NoCollision(names, schemas)
    requires k in names && f in names && names[k] == names[f] && SettledKey(schemas, f) && Reaches(schemas, k, k)
    ensures !AllCorrespond(names, schemas)
  {
    hide WholeBook, NoCollision, AllCorrespond;
    if AllCorrespond(names, schemas) {
      assert Leads(schemas, k, k);
      SettledKeys(names, schemas, k, f);
      assert false;
    }
  }
}
