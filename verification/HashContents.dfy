/** What the two hashes see: exactly which members of which entries, and how much of each. */
module HashContents {
  import opened JsonTrees
  import opened Options
  import opened Sorting
  import opened Strings
  import opened Hash
  import opened HashProjection
  import Utf16

  // ---------------------------------------------------------------- entries

  /** The entries of a list that count: objects whose topic is not one of Benzene's own. */
  function Counted(items: seq<Json>): (kept: seq<Json>)
    ensures forall e | e in kept :: e.Obj?
  {
    if items == [] then []
    else
      var topic := MemberString(AsObject(items[0]), "topic");
      (if items[0].Obj? && !("benzene:" <= topic) then [items[0]] else []) + Counted(items[1..])
  }

  /** A list's entries in canonical order: by topic, then version, otherwise as the document has them. */
  function Ordered(doc: map<string, Json>, list: string): (es: seq<Json>)
    ensures forall e | e in es :: e.Obj?
  {
    var es := StableSort(Counted(MemberItems(doc, list)), EntryLess);
    assert forall e | e in es :: e in multiset(es);
    es
  }

  /** The member is absent from both, or there with the same value. */
  predicate SameValue(e: map<string, Json>, f: map<string, Json>, member: string) {
    if member in e then member in f && f[member] == e[member] else member !in f
  }

  predicate SameForm(e: map<string, Json>, s: Components, f: map<string, Json>, r: Components, member: string) {
    if member in e then member in f && Normalize(f[member], r, {}).out == Normalize(e[member], s, {}).out
    else member !in f
  }

  predicate SameMappings(e: map<string, Json>, f: map<string, Json>, member: string) {
    if member in e then member in f && NormalizeMappings(f[member]) == NormalizeMappings(e[member]) else member !in f
  }

  predicate SameRequest(e: map<string, Json>, s: Components, f: map<string, Json>, r: Components) {
    && SameValue(e, f, "topic") && SameValue(e, f, "version") && SameMappings(e, f, "httpMappings")
    && SameForm(e, s, f, r, "request") && SameForm(e, s, f, r, "response")
  }

  predicate SameEvent(e: map<string, Json>, s: Components, f: map<string, Json>, r: Components) {
    SameValue(e, f, "topic") && SameValue(e, f, "version") && SameForm(e, s, f, r, "message")
  }

  predicate SameSend(e: map<string, Json>, s: Components, f: map<string, Json>, r: Components) {
    && SameValue(e, f, "topic") && SameValue(e, f, "version")
    && SameForm(e, s, f, r, "request") && SameForm(e, s, f, r, "response")
  }

  /** Entries of one list agree on all that is hashed of them. */
  predicate SameEntry(list: string, e: map<string, Json>, s: Components, f: map<string, Json>, r: Components) {
    if list == "requests" then SameRequest(e, s, f, r)
    else if list == "events" then SameEvent(e, s, f, r)
    else SameSend(e, s, f, r)
  }

  predicate SameMember(list: string, e: map<string, Json>, s: Components, f: map<string, Json>, r: Components,
      k: string)
  {
    if k in EntryMembers(list) && k in e then k in f && ProjectMember(k, f[k], r) == ProjectMember(k, e[k], s)
    else k in EntryMembers(list) ==> k !in f
  }

  lemma SameMembers(list: string, e: map<string, Json>, s: Components, f: map<string, Json>, r: Components)
    ensures ProjectEntry(list, e, s) == ProjectEntry(list, f, r) <==> forall k :: SameMember(list, e, s, f, r, k)
  {
    hide ProjectMember, EntryMembers;
    var p, q := ProjectEntry(list, e, s).members, ProjectEntry(list, f, r).members;
    if p == q {
      forall k ensures SameMember(list, e, s, f, r, k) {
        assert k in p <==> k in q;
      }
    }
    if forall k :: SameMember(list, e, s, f, r, k) {
      forall k ensures k in p <==> k in q {
        assert SameMember(list, e, s, f, r, k);
      }
      forall k | k in p ensures p[k] == q[k] {
        assert SameMember(list, e, s, f, r, k);
      }
    }
  }

  /** Two entries project alike exactly when they agree on all that is hashed of them. */
  lemma SameEntryProjects(list: string, e: map<string, Json>, s: Components, f: map<string, Json>, r: Components)
    requires list in {"requests", "events", "sends"}
    ensures ProjectEntry(list, e, s) == ProjectEntry(list, f, r) <==> SameEntry(list, e, s, f, r)
  {
    SameMembers(list, e, s, f, r);
    hide Normalize, NormalizeMappings, ProjectEntry;
    var literal := {"topic", "version", "httpMappings", "request", "response", "message"};
    if forall k :: SameMember(list, e, s, f, r, k) {
      assert forall k | k in literal :: SameMember(list, e, s, f, r, k);
    }
  }

  // ---------------------------------------------------------------- lists

  /** The projection of one entry of a list. */
  function Projected(list: string, s: Components): Json -> Json {
    e => ProjectEntry(list, AsObject(e), s)
  }

  lemma {:induction false} CountedProject(list: string, items: seq<Json>, s: Components)
    ensures ProjectEntries(list, items, s) == Each(Projected(list, s), Counted(items))
  {
    hide ProjectEntry;
    if items != [] {
      CountedProject(list, items[1..], s);
    }
  }

  /** A list's projection is that of its entries in canonical order. */
  lemma ListIsOrdered(doc: map<string, Json>, list: string)
    requires list in {"requests", "events", "sends"}
    ensures ProjectList(doc, list) == Arr(Each(Projected(list, SchemasOf(doc)), Ordered(doc, list)))
  {
    var items, s := MemberItems(doc, list), SchemasOf(doc);
    CountedProject(list, items, s);
    forall x, y ensures EntryLess(Projected(list, s)(y), Projected(list, s)(x)) <==> EntryLess(y, x) {
      TopicIsKept(list, AsObject(x), s);
      TopicIsKept(list, AsObject(y), s);
    }
    SortEach(Projected(list, s), Counted(items), EntryLess, EntryLess);
  }

  /** The two documents' entries agree pairwise, in canonical order, on all that is hashed of them. */
  ghost predicate SameEntries(list: string, doc: map<string, Json>, doc': map<string, Json>) {
    var es, fs := Ordered(doc, list), Ordered(doc', list);
    |es| == |fs| && forall i | 0 <= i < |es| ::
      SameEntry(list, AsObject(es[i]), SchemasOf(doc), AsObject(fs[i]), SchemasOf(doc'))
  }

  lemma PairsProjectAlike(list: string, es: seq<Json>, s: Components, fs: seq<Json>, r: Components)
    requires list in {"requests", "events", "sends"}
    ensures Each(Projected(list, s), es) == Each(Projected(list, r), fs) <==>
      |es| == |fs| && forall i | 0 <= i < |es| :: SameEntry(list, AsObject(es[i]), s, AsObject(fs[i]), r)
  {
    hide ProjectEntry, SameEntry, AsObject;
    var ps, qs := Each(Projected(list, s), es), Each(Projected(list, r), fs);
    if |es| == |fs| {
      forall i | 0 <= i < |es|
        ensures ps[i] == qs[i] <==> SameEntry(list, AsObject(es[i]), s, AsObject(fs[i]), r)
      {
        SameEntryProjects(list, AsObject(es[i]), s, AsObject(fs[i]), r);
      }
    }
  }

  lemma ListsProjectAlike(list: string, doc: map<string, Json>, doc': map<string, Json>)
    requires list in {"requests", "events", "sends"}
    ensures ProjectList(doc, list) == ProjectList(doc', list) <==> SameEntries(list, doc, doc')
  {
    hide ProjectList, Ordered, SameEntry, AsObject, SchemasOf, Each;
    ListIsOrdered(doc, list);
    ListIsOrdered(doc', list);
    PairsProjectAlike(list, Ordered(doc, list), SchemasOf(doc), Ordered(doc', list), SchemasOf(doc'));
  }

  /** Two documents hash alike exactly when their requests and their events - and their sends, when those
      are hashed - agree pairwise on topic and version, on the HTTP mappings up to their normal form, and on
      the normal forms of the request, response or message. Nothing else in a document is hashed. */
  lemma ProjectionIsContents(doc: map<string, Json>, doc': map<string, Json>, withSends: bool)
    ensures Projection(doc, withSends) == Projection(doc', withSends) <==>
      && SameEntries("requests", doc, doc') && SameEntries("events", doc, doc')
      && (withSends ==> SameEntries("sends", doc, doc'))
  {
    hide ProjectList, SameEntries, Projection;
    ListsProjectAlike("requests", doc, doc');
    ListsProjectAlike("events", doc, doc');
    ListsProjectAlike("sends", doc, doc');
    ProjectionLists(doc, withSends);
    ProjectionLists(doc', withSends);
    if SameEntries("requests", doc, doc') && SameEntries("events", doc, doc')
      && (withSends ==> SameEntries("sends", doc, doc'))
    {
      ListsMakeProjection(doc, doc', withSends);
    }
  }

  lemma ListsMakeProjection(doc: map<string, Json>, doc': map<string, Json>, withSends: bool)
    requires ProjectList(doc, "requests") == ProjectList(doc', "requests")
    requires ProjectList(doc, "events") == ProjectList(doc', "events")
    requires withSends ==> ProjectList(doc, "sends") == ProjectList(doc', "sends")
    ensures Projection(doc, withSends) == Projection(doc', withSends)
  {
    hide ProjectList;
  }

  // ---------------------------------------------------------------- the canonical order

  /** Entries stand by topic, then the unversioned before the versioned, then by version, text in the order of
      its UTF-16 code units; entries with one topic and version stand as the document has them. */
  lemma CanonicalOrder(doc: map<string, Json>, list: string, x: Json)
    ensures var es := Ordered(doc, list);
      && (forall i, j | 0 <= i < j < |es| :: !Follows(AsObject(es[i]), AsObject(es[j])))
      && multiset(es) == multiset(Counted(MemberItems(doc, list)))
      && FlatMap(y => if SameKey(x, y) then [y] else [], es)
           == FlatMap(y => if SameKey(x, y) then [y] else [], Counted(MemberItems(doc, list)))
  {
    var kept, es := Counted(MemberItems(doc, list)), Ordered(doc, list);
    EntryLessIsOrder();
    hide EntryLess, SameKey, Follows, StrictWeakOrder, Counted, FlatMap, Alongside;
    SortIsSorted(kept, EntryLess);
    SortIsStable(x, kept, EntryLess);
    forall y, z ensures SameKey(y, z) <==> !EntryLess(y, z) && !EntryLess(z, y)
      ensures Follows(AsObject(y), AsObject(z)) <==> EntryLess(z, y)
    {
      OrderIsByKey(y, z);
    }
    AlongsideIsKey(x, kept);
    AlongsideIsKey(x, es);
  }

  lemma OrderIsByKey(x: Json, y: Json)
    ensures SameKey(x, y) <==> !EntryLess(x, y) && !EntryLess(y, x)
    ensures Follows(AsObject(x), AsObject(y)) <==> EntryLess(y, x)
  {
    Utf16.LessIsOrder();
  }

  predicate Follows(e: map<string, Json>, f: map<string, Json>) {
    var (t, u) := (MemberString(e, "topic"), MemberString(f, "topic"));
    || Utf16.Less(u, t)
    || (t == u && "version" in e && "version" !in f)
    || (t == u && ("version" in e <==> "version" in f)
        && Utf16.Less(MemberString(f, "version"), MemberString(e, "version")))
  }

  predicate SameKey(x: Json, y: Json) { KeyOf(AsObject(x)) == KeyOf(AsObject(y)) }

  lemma {:induction false} AlongsideIsKey(x: Json, s: seq<Json>)
    requires forall y :: SameKey(x, y) <==> !EntryLess(x, y) && !EntryLess(y, x)
    ensures Alongside(x, s, EntryLess) == FlatMap(y => if SameKey(x, y) then [y] else [], s)
  {
    hide EntryLess, SameKey;
    if s != [] {
      AlongsideIsKey(x, s[1..]);
    }
  }

  // ---------------------------------------------------------------- HTTP mappings

  /** The (method, path) of each mapping that is an object, the method in upper case. */
  function RoutesOf(items: seq<Json>): seq<(string, string)> {
    if items == [] then []
    else
      var m := AsObject(items[0]);
      (if items[0].Obj? then [(Upper(MemberString(m, "method")), MemberString(m, "path"))] else [])
      + RoutesOf(items[1..])
  }

  function RouteJson(r: (string, string)): Json { Obj(map["method" := Str(r.0), "path" := Str(r.1)]) }

  lemma {:induction false} MappingsAreRoutes(items: seq<Json>)
    ensures Mappings(items) == Each(RouteJson, RoutesOf(items))
  {
    hide Upper;
    if items != [] {
      MappingsAreRoutes(items[1..]);
      var rest := RoutesOf(items[1..]);
      if items[0].Obj? {
        var m := items[0].members;
        var r := (Upper(MemberString(m, "method")), MemberString(m, "path"));
        assert Each(RouteJson, [r] + rest) == [RouteJson(r)] + Each(RouteJson, rest);
        assert RouteJson(r) == Mapping(m);
      }
    }
  }

  lemma RouteJsonInjective(r: (string, string), q: (string, string))
    requires RouteJson(r) == RouteJson(q)
    ensures r == q
  {
    assert RouteJson(r).members["method"] == RouteJson(q).members["method"];
    assert RouteJson(r).members["path"] == RouteJson(q).members["path"];
  }

  /** Lists of mappings hash alike exactly when they hold the same routes, as often, up to the case of the
      method; their order, other members and items that are no objects do not count. */
  lemma MappingsAreTheirRoutes(a: seq<Json>, b: seq<Json>)
    ensures NormalizeMappings(Arr(a)) == NormalizeMappings(Arr(b)) <==> multiset(RoutesOf(a)) == multiset(RoutesOf(b))
  {
    MappingsAreRoutes(a);
    MappingsAreRoutes(b);
    forall r, q ensures RouteJson(r) == RouteJson(q) ==> r == q {
      if RouteJson(r) == RouteJson(q) { RouteJsonInjective(r, q); }
    }
    hide RouteJson, Mappings, MappingLess;
    EachForgetsOrder(RouteJson, RoutesOf(a), RoutesOf(b));
    if multiset(Mappings(a)) == multiset(Mappings(b)) {
      MappingsSort(a, b);
    }
    if NormalizeMappings(Arr(a)) == NormalizeMappings(Arr(b)) {
      assert StableSort(Mappings(a), MappingLess) == StableSort(Mappings(b), MappingLess);
    }
  }

  /** Mappings stand by method, then by path, text in the order of its UTF-16 code units. */
  lemma MappingOrder(items: seq<Json>, i: nat, j: nat)
    requires i < j < |NormalizeMappings(Arr(items)).items|
    ensures var ms := NormalizeMappings(Arr(items)).items;
      var (e, f) := (AsObject(ms[i]), AsObject(ms[j]));
      && !Utf16.Less(MemberString(f, "method"), MemberString(e, "method"))
      && (MemberString(f, "method") == MemberString(e, "method") ==>
            !Utf16.Less(MemberString(f, "path"), MemberString(e, "path")))
  {
    MappingLessIsOrder();
    SortIsSorted(Mappings(items), MappingLess);
    Utf16.LessIsOrder();
    hide StableSort, Mappings, StrictWeakOrder;
  }

  // ---------------------------------------------------------------- annotations

  /** The keywords that say nothing of the values a schema admits. */
  predicate IsNote(k: string) {
    || k in {"title", "description", "default", "examples", "example", "deprecated", "readOnly", "writeOnly"}
    || k in {"$comment", "$id", "$schema", "format"}
    || "x-" <= k
  }

  lemma NotesAreAnnotations()
    ensures forall k :: IsNote(k) <==> IsAnnotation(k)
    ensures !IsNote("$ref")
  {
    assert "$ref"[0] == '$' && "x-"[0] == 'x';
  }

  /** A member a normal form keeps: no annotation, no empty properties, no empty required. */
  predicate Counts(m: map<string, Json>, k: string) {
    k in m && !IsNote(k) && !(k == "properties" && m[k] == Obj(map[])) && !(k == "required" && m[k] == Arr([]))
  }

  /** The wrapper that marks a schema nullable, around a reference back into a component being expanded. */
  predicate WrapsCycle(m: map<string, Json>, schemas: Components, path: set<string>) {
    && "allOf" in m && m["allOf"].Arr? && |m["allOf"].items| == 1 && "nullable" in m && m["nullable"] == Bool(true)
    && Normalize(m["allOf"].items[0], schemas, path).cut
    && forall k | k in m && Counts(m, k) :: k in {"nullable", "allOf", "type"}
  }

  /** A schema that is no reference keeps exactly the members that count - none when it is the nullable wrapper
      of a cut cycle, which reads as the cut schema itself does. */
  lemma NormalFormKeeps(m: map<string, Json>, schemas: Components, path: set<string>)
    requires "$ref" !in m
    ensures var out := Normalize(Obj(m), schemas, path).out;
      out.Obj? && forall k :: k in out.members <==> Counts(m, k) && !WrapsCycle(m, schemas, path)
  {
    NotesAreAnnotations();
    KeywordsAreKept();
    hide IsNote, IsAnnotation, Normalize;
    var kept := map k | k in m && IsKept(k, m[k]) :: Keyword(k, m[k], schemas, path);
    UnfoldObject(Obj(m), kept, schemas, path);
    assert forall k :: k in kept <==> Counts(m, k);
    assert "nullable" in kept ==> kept["nullable"] == m["nullable"];
  }

  /** Adding, changing or removing an annotation of a schema that is no reference changes no normal form. */
  lemma AnnotationsAreForgotten(m: map<string, Json>, note: string, v: Json, schemas: Components, path: set<string>)
    requires "$ref" !in m && IsNote(note)
    ensures Normalize(Obj(m[note := v]), schemas, path) == Normalize(Obj(m), schemas, path)
  {
    NotesAreAnnotations();
    KeywordsAreKept();
    hide IsNote, IsAnnotation, Keyword, Normalize;
    var m' := m[note := v];
    var kept := map k | k in m && IsKept(k, m[k]) :: Keyword(k, m[k], schemas, path);
    var kept' := map k | k in m' && IsKept(k, m'[k]) :: Keyword(k, m'[k], schemas, path);
    assert kept == kept';
    UnfoldObject(Obj(m), kept, schemas, path);
    UnfoldObject(Obj(m'), kept', schemas, path);
  }

  /** A reference to a component reads as the component does, once; a reference to a component being expanded, to
      none, or elsewhere, reads as the schema that admits anything. */
  lemma ReferencesExpand(ref: Json, schemas: Components, path: set<string>)
    requires ref.Obj? && "$ref" in ref.members
    ensures var out, to := Normalize(ref, schemas, path).out, ref.members["$ref"];
      && (forall name :: to == Str("#/components/schemas/" + name) && name in schemas && name !in path ==>
            out == Normalize(schemas[name], schemas, path + {name}).out)
      && ((forall name :: to == Str("#/components/schemas/" + name) ==> name !in schemas || name in path) ==>
            out == Obj(map[]))
  {
    var to := ref.members["$ref"];
    forall name | to == Str("#/components/schemas/" + name) ensures RefTarget(to) == Some(name) {
      assert to.s[|REF_PREFIX|..] == name;
    }
    if RefTarget(to).Some? {
      assert to == Str("#/components/schemas/" + RefTarget(to).value);
    }
  }
}
