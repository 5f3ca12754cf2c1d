/** What the two hashes cannot see. The hash of a projection is an injective function of the
    projection (up to SHA-256 collisions), so each law is an equality of projections. */
module HashProjection {
  import opened JsonTrees
  import opened Sorting
  import opened Strings
  import opened Hash
  import opened HashNormalForms
  import opened HashNaming
  import opened HashHoisting
  import Utf16

  const LISTS := {"requests", "events", "sends"}

  lemma EntryLessIsOrder()
    ensures StrictWeakOrder(EntryLess)
  {
    Utf16.LessIsOrder();
  }

  lemma MappingLessIsOrder()
    ensures StrictWeakOrder(MappingLess)
  {
    Utf16.LessIsOrder();
  }

  // ---------------------------------------------------------------- projecting twice

  lemma UpperTwice(s: string)
    ensures Upper(Upper(s)) == Upper(s)
  {
  }

  lemma {:induction false} MappingsFixed(items: seq<Json>)
    requires forall e | e in items :: IsMapping(e)
    ensures Mappings(items) == items
  {
    if items != [] {
      MappingsFixed(items[1..]);
      assert IsMapping(items[0]);
      assert items == [items[0]] + items[1..];
    }
  }

  /** What a normalised mapping is: exactly the two members, the method in upper case. */
  ghost predicate IsMapping(e: Json) { e.Obj? && Mapping(e.members) == e }

  lemma MappingsAreMappings(items: seq<Json>, e: Json)
    requires e in Mappings(items)
    ensures IsMapping(e)
  {
    var f := (item: Json) => if item.Obj? then [Mapping(item.members)] else [];
    FlatMapElements(f, items, e);
    var i :| 0 <= i < |items| && e in f(items[i]);
    UpperTwice(MemberString(items[i].members, "method"));
  }

  lemma NormalizeMappingsTwice(v: Json)
    ensures NormalizeMappings(NormalizeMappings(v)) == NormalizeMappings(v)
  {
    if v.Arr? {
      var mapped := Mappings(v.items);
      var sorted := StableSort(mapped, MappingLess);
      forall e | e in sorted ensures IsMapping(e) {
        assert e in multiset(sorted);
        MappingsAreMappings(v.items, e);
      }
      MappingsFixed(sorted);
      MappingLessIsOrder();
      SortIsSorted(mapped, MappingLess);
      SortOfSorted(sorted, MappingLess);
    }
  }

  lemma ProjectMemberTwice(member: string, v: Json, schemas: Components, schemas': Components)
    ensures ProjectMember(member, ProjectMember(member, v, schemas), schemas') == ProjectMember(member, v, schemas)
  {
    if member in SCHEMA_MEMBERS {
      NormalizeGivesNormalForm(v, schemas, {});
      NormalFormIsFixed(Normalize(v, schemas, {}).out, schemas', {});
    } else if member == "httpMappings" {
      NormalizeMappingsTwice(v);
    }
  }

  lemma ProjectEntryTwice(list: string, entry: map<string, Json>, schemas: Components, schemas': Components)
    ensures ProjectEntry(list, ProjectEntry(list, entry, schemas).members, schemas')
      == ProjectEntry(list, entry, schemas)
  {
    var once := ProjectEntry(list, entry, schemas).members;
    forall k | k in EntryMembers(list) && k in entry
      ensures ProjectMember(k, once[k], schemas') == once[k]
    {
      ProjectMemberTwice(k, entry[k], schemas, schemas');
    }
  }

  lemma TopicIsKept(list: string, entry: map<string, Json>, schemas: Components)
    requires list in LISTS
    ensures MemberString(ProjectEntry(list, entry, schemas).members, "topic") == MemberString(entry, "topic")
    ensures "version" in ProjectEntry(list, entry, schemas).members <==> "version" in entry
    ensures MemberString(ProjectEntry(list, entry, schemas).members, "version") == MemberString(entry, "version")
  {
    assert "topic" in EntryMembers(list) && "version" in EntryMembers(list);
    assert "topic" !in SCHEMA_MEMBERS && "version" !in SCHEMA_MEMBERS;
  }

  lemma {:induction false} EntriesFixed(list: string, items: seq<Json>, schemas: Components)
    requires forall e | e in items :: IsListed(e) && ProjectEntry(list, e.members, schemas) == e
    ensures ProjectEntries(list, items, schemas) == items
  {
    if items != [] {
      EntriesFixed(list, items[1..], schemas);
      assert items == [items[0]] + items[1..];
    }
  }

  lemma ProjectListTwice(doc: map<string, Json>, list: string, doc': map<string, Json>)
    requires list in LISTS
    requires list in doc' && doc'[list] == ProjectList(doc, list)
    ensures ProjectList(doc', list) == ProjectList(doc, list)
  {
    var schemas := SchemasOf(doc);
    var raw := MemberItems(doc, list);
    var entries := ProjectEntries(list, raw, schemas);
    var sorted := StableSort(entries, EntryLess);
    forall e | e in sorted ensures IsListed(e) && ProjectEntry(list, e.members, SchemasOf(doc')) == e {
      assert e in multiset(sorted);
      var f := (item: Json) => ProjectListed(list, item, schemas);
      FlatMapElements(f, raw, e);
      var i :| 0 <= i < |raw| && e in f(raw[i]);
      TopicIsKept(list, raw[i].members, schemas);
      ProjectEntryTwice(list, raw[i].members, schemas, SchemasOf(doc'));
    }
    EntriesFixed(list, sorted, SchemasOf(doc'));
    EntryLessIsOrder();
    SortIsSorted(entries, EntryLess);
    SortOfSorted(sorted, EntryLess);
  }

  lemma ProjectionLists(doc: map<string, Json>, withSends: bool)
    ensures var p := Projection(doc, withSends);
      && "requests" in p && p["requests"] == ProjectList(doc, "requests")
      && "events" in p && p["events"] == ProjectList(doc, "events")
      && (withSends ==> "sends" in p && p["sends"] == ProjectList(doc, "sends"))
  {
    assert |"requests"| == 8 && |"events"| == 6 && |"sends"| == 5;
  }

  /** Projecting a projection changes nothing. */
  lemma ProjectionTwice(doc: map<string, Json>, withSends: bool)
    ensures Projection(Projection(doc, withSends), withSends) == Projection(doc, withSends)
  {
    var p := Projection(doc, withSends);
    ProjectionLists(doc, withSends);
    ProjectListTwice(doc, "requests", p);
    ProjectListTwice(doc, "events", p);
    if withSends {
      ProjectListTwice(doc, "sends", p);
    }
  }

  // ---------------------------------------------------------------- order

  /** The (topic, version) an entry is ordered by. */
  datatype EntryKey = EntryKey(topic: string, versioned: bool, version: string)

  function KeyOf(entry: map<string, Json>): EntryKey {
    EntryKey(MemberString(entry, "topic"), "version" in entry, MemberString(entry, "version"))
  }

  ghost predicate DistinctKeys(items: seq<Json>) {
    forall i, j | 0 <= i < j < |items| && IsListed(items[i]) && IsListed(items[j]) ::
      KeyOf(items[i].members) != KeyOf(items[j].members)
  }

  lemma KeysDecide(x: Json, y: Json)
    requires x.Obj? && y.Obj? && KeyOf(x.members) != KeyOf(y.members)
    ensures EntryLess(x, y) || EntryLess(y, x)
  {
    Utf16.LessIsOrder();
  }

  lemma DistinctKeysSeparate(list: string, items: seq<Json>, schemas: Components)
    requires list in LISTS && DistinctKeys(items)
    ensures Separates(EntryLess, ProjectEntries(list, items, schemas))
  {
    var entries := ProjectEntries(list, items, schemas);
    forall x, y | x in entries && y in entries && x != y ensures EntryLess(x, y) || EntryLess(y, x) {
      var i := SourceOf(list, items, schemas, x);
      var j := SourceOf(list, items, schemas, y);
      assert i != j;
      KeysDecide(x, y);
    }
  }

  /** The item an entry projects. */
  lemma SourceOf(list: string, items: seq<Json>, schemas: Components, x: Json) returns (i: nat)
    requires list in LISTS && x in ProjectEntries(list, items, schemas)
    ensures i < |items| && IsListed(items[i]) && x == ProjectEntry(list, items[i].members, schemas)
    ensures x.Obj? && KeyOf(x.members) == KeyOf(items[i].members)
  {
    var f := (item: Json) => ProjectListed(list, item, schemas);
    FlatMapElements(f, items, x);
    i :| 0 <= i < |items| && x in f(items[i]);
    TopicIsKept(list, items[i].members, schemas);
  }

  /** doc' lists the entries of doc in some other order. */
  ghost predicate Rearranges(doc: map<string, Json>, doc': map<string, Json>, list: string) {
    multiset(MemberItems(doc, list)) == multiset(MemberItems(doc', list))
  }

  lemma ListForgetsOrder(doc: map<string, Json>, doc': map<string, Json>, list: string)
    requires list in LISTS
    requires SchemasOf(doc) == SchemasOf(doc')
    requires Rearranges(doc, doc', list) && DistinctKeys(MemberItems(doc, list))
    ensures ProjectList(doc, list) == ProjectList(doc', list)
  {
    var schemas := SchemasOf(doc);
    var a, b := MemberItems(doc, list), MemberItems(doc', list);
    FlatMapForgetsOrder((item: Json) => ProjectListed(list, item, schemas), a, b);
    DistinctKeysSeparate(list, a, schemas);
    EntryLessIsOrder();
    SortForgetsOrder(ProjectEntries(list, a, schemas), ProjectEntries(list, b, schemas), EntryLess);
  }

  /** The order of entries in the document is not hashed. */
  lemma ProjectionForgetsOrder(doc: map<string, Json>, doc': map<string, Json>, withSends: bool)
    requires SchemasOf(doc) == SchemasOf(doc')
    requires forall list | list in LISTS :: Rearranges(doc, doc', list)
    requires forall list | list in LISTS :: DistinctKeys(MemberItems(doc, list))
    ensures Projection(doc, withSends) == Projection(doc', withSends)
  {
    forall list | list in LISTS ensures ProjectList(doc, list) == ProjectList(doc', list) {
      ListForgetsOrder(doc, doc', list);
    }
    assert "requests" in LISTS && "events" in LISTS && "sends" in LISTS;
  }

  lemma MappingsAreSeparated(x: Json, y: Json)
    requires IsMapping(x) && IsMapping(y) && x != y
    ensures MappingLess(x, y) || MappingLess(y, x)
  {
    var mx, my := x.members, y.members;
    assert Mapping(mx) != Mapping(my);
    assert mx["method"].Str? && my["method"].Str?;
    assert MemberString(mx, "method") != MemberString(my, "method")
      || MemberString(mx, "path") != MemberString(my, "path");
    Utf16.LessIsOrder();
  }

  /** The order of HTTP mappings is not hashed; no mapping has to be distinct from another. */
  lemma MappingsForgetOrder(a: seq<Json>, b: seq<Json>)
    requires multiset(a) == multiset(b)
    ensures NormalizeMappings(Arr(a)) == NormalizeMappings(Arr(b))
  {
    FlatMapForgetsOrder((item: Json) => if item.Obj? then [Mapping(item.members)] else [], a, b);
    MappingsSort(a, b);
  }

  lemma MappingsSort(a: seq<Json>, b: seq<Json>)
    requires multiset(Mappings(a)) == multiset(Mappings(b))
    ensures NormalizeMappings(Arr(a)) == NormalizeMappings(Arr(b))
  {
    forall x, y | x in Mappings(a) && y in Mappings(a) && x != y
      ensures MappingLess(x, y) || MappingLess(y, x)
    {
      MappingsAreMappings(a, x);
      MappingsAreMappings(a, y);
      MappingsAreSeparated(x, y);
    }
    MappingLessIsOrder();
    SortForgetsOrder(Mappings(a), Mappings(b), MappingLess);
  }

  // ---------------------------------------------------------------- naming and hoisting

  /** Two lists keep the same entries, position by position, with equal projections. */
  ghost predicate SameProjections(list: string, a: seq<Json>, sa: Components, b: seq<Json>, sb: Components) {
    |a| == |b| && forall i | 0 <= i < |a| :: ProjectListed(list, a[i], sa) == ProjectListed(list, b[i], sb)
  }

  lemma {:induction false} SameProjectionsCollect(list: string, a: seq<Json>, sa: Components, b: seq<Json>,
      sb: Components)
    requires SameProjections(list, a, sa, b, sb)
    ensures ProjectEntries(list, a, sa) == ProjectEntries(list, b, sb)
  {
    if a != [] {
      assert ProjectListed(list, a[0], sa) == ProjectListed(list, b[0], sb);
      assert SameProjections(list, a[1..], sa, b[1..], sb) by {
        forall i | 0 <= i < |a[1..]| ensures ProjectListed(list, a[1..][i], sa) == ProjectListed(list, b[1..][i], sb) {
          assert a[1..][i] == a[i + 1] && b[1..][i] == b[i + 1];
        }
      }
      SameProjectionsCollect(list, a[1..], sa, b[1..], sb);
    }
  }

  /** Entries that differ only in what no hash should see: names, annotations and required order in
      their schemas, and the order of their HTTP mappings. */
  ghost predicate AlikeEntries(e: Json, f: Json, rho: string -> string) {
    if !e.Obj? || !f.Obj? then !e.Obj? && !f.Obj?
    else e.members.Keys == f.members.Keys && forall k | k in e.members ::
      AlikeMember(k, e.members[k], f.members[k], rho)
  }

  ghost predicate AlikeMember(key: string, v: Json, w: Json, rho: string -> string) {
    if key in SCHEMA_MEMBERS then Alike(v, w, rho)
    else if key == "httpMappings" && v.Arr? && w.Arr? then multiset(v.items) == multiset(w.items)
    else v == w
  }

  ghost predicate AlikeDocuments(doc: map<string, Json>, doc': map<string, Json>, rho: string -> string) {
    && CarriesComponents(SchemasOf(doc), SchemasOf(doc'), rho)
    && forall list | list in LISTS ::
      |MemberItems(doc, list)| == |MemberItems(doc', list)|
      && forall i | 0 <= i < |MemberItems(doc, list)| ::
        AlikeEntries(MemberItems(doc, list)[i], MemberItems(doc', list)[i], rho)
  }

  lemma SameMembersProject(list: string, m: map<string, Json>, n: map<string, Json>, s: Components, s': Components)
    requires m.Keys == n.Keys && forall k | k in m :: ProjectMember(k, m[k], s) == ProjectMember(k, n[k], s')
    ensures ProjectEntry(list, m, s) == ProjectEntry(list, n, s')
  {
    hide ProjectMember;
  }

  lemma AlikeEntriesProject(list: string, e: Json, f: Json, rho: string -> string, s: Components, s': Components)
    requires AlikeEntries(e, f, rho) && CarriesComponents(s, s', rho)
    ensures ProjectListed(list, e, s) == ProjectListed(list, f, s')
  {
    hide Normalize, Alike, CarriesComponents, IsReserved, StableSort, Mappings;
    if e.Obj? && f.Obj? {
      assert MemberString(e.members, "topic") == MemberString(f.members, "topic") by {
        assert "topic" !in SCHEMA_MEMBERS;
        if "topic" in e.members { assert AlikeMember("topic", e.members["topic"], f.members["topic"], rho); }
      }
      forall k | k in e.members ensures ProjectMember(k, e.members[k], s) == ProjectMember(k, f.members[k], s') {
        var v, w := e.members[k], f.members[k];
        assert AlikeMember(k, v, w, rho);
        if k in SCHEMA_MEMBERS {
          AlikeNormalize(v, w, rho, s, s', {}, {});
        } else if k == "httpMappings" && v.Arr? && w.Arr? {
          MappingsForgetOrder(v.items, w.items);
        }
      }
      SameMembersProject(list, e.members, f.members, s, s');
    }
  }

  lemma AlikeListsProject(doc: map<string, Json>, doc': map<string, Json>, rho: string -> string, list: string)
    requires AlikeDocuments(doc, doc', rho) && list in LISTS
    ensures ProjectList(doc, list) == ProjectList(doc', list)
  {
    var a, b := MemberItems(doc, list), MemberItems(doc', list);
    forall i | 0 <= i < |a|
      ensures ProjectListed(list, a[i], SchemasOf(doc)) == ProjectListed(list, b[i], SchemasOf(doc'))
    {
      AlikeEntriesProject(list, a[i], b[i], rho, SchemasOf(doc), SchemasOf(doc'));
    }
    SameProjectionsCollect(list, a, SchemasOf(doc), b, SchemasOf(doc'));
  }

  /** Component names, annotations and orders are not hashed. */
  lemma ProjectionIgnoresNames(doc: map<string, Json>, doc': map<string, Json>, rho: string -> string, withSends: bool)
    requires AlikeDocuments(doc, doc', rho)
    ensures Projection(doc, withSends) == Projection(doc', withSends)
  {
    hide ProjectList, AlikeDocuments;
    AlikeListsProject(doc, doc', rho, "requests");
    AlikeListsProject(doc, doc', rho, "events");
    AlikeListsProject(doc, doc', rho, "sends");
  }

  /** doc' is doc with component c written in place at every reference, and dropped. */
  ghost predicate InlinesComponent(doc: map<string, Json>, doc': map<string, Json>, c: string)
    requires c in SchemasOf(doc)
  {
    var body := SchemasOf(doc)[c];
    && SchemasOf(doc') == InlineComponents(SchemasOf(doc), c)
    && forall list | list in LISTS ::
      |MemberItems(doc, list)| == |MemberItems(doc', list)|
      && forall i | 0 <= i < |MemberItems(doc, list)| ::
        InlinesEntry(MemberItems(doc, list)[i], MemberItems(doc', list)[i], c, body)
  }

  ghost predicate InlinesEntry(e: Json, f: Json, c: string, body: Json) {
    if !e.Obj? then e == f
    else f.Obj? && e.members.Keys == f.members.Keys && forall k | k in e.members ::
      f.members[k] == if k in SCHEMA_MEMBERS then Inline(e.members[k], c, body) else e.members[k]
  }

  lemma InlineEntryProjects(list: string, e: Json, f: Json, schemas: Components, c: string)
    requires c in schemas && Acyclic(schemas, c) && InlinesEntry(e, f, c, schemas[c])
    ensures ProjectListed(list, e, schemas) == ProjectListed(list, f, InlineComponents(schemas, c))
  {
    assert "topic" !in SCHEMA_MEMBERS;
    hide Normalize, Inline, InlineComponents, Acyclic, IsReserved, NormalizeMappings;
    if e.Obj? {
      var s' := InlineComponents(schemas, c);
      forall k | k in e.members ensures ProjectMember(k, e.members[k], schemas) == ProjectMember(k, f.members[k], s') {
        InliningKeepsNormalForm(e.members[k], schemas, c);
      }
      SameMembersProject(list, e.members, f.members, schemas, s');
      hide ProjectEntry, ProjectMember;
    }
  }

  lemma InlineListsProject(doc: map<string, Json>, doc': map<string, Json>, c: string, list: string)
    requires c in SchemasOf(doc) && Acyclic(SchemasOf(doc), c) && InlinesComponent(doc, doc', c)
    requires list in LISTS
    ensures ProjectList(doc, list) == ProjectList(doc', list)
  {
    var s, s' := SchemasOf(doc), SchemasOf(doc');
    var a, b := MemberItems(doc, list), MemberItems(doc', list);
    forall i | 0 <= i < |a| ensures ProjectListed(list, a[i], s) == ProjectListed(list, b[i], s') {
      InlineEntryProjects(list, a[i], b[i], s, c);
    }
    SameProjectionsCollect(list, a, s, b, s');
  }

  /** Whether an acyclic type is hoisted is not hashed. */
  lemma ProjectionIgnoresHoisting(doc: map<string, Json>, doc': map<string, Json>, c: string, withSends: bool)
    requires c in SchemasOf(doc) && Acyclic(SchemasOf(doc), c) && InlinesComponent(doc, doc', c)
    ensures Projection(doc, withSends) == Projection(doc', withSends)
  {
    hide ProjectList, InlinesComponent, Acyclic;
    InlineListsProject(doc, doc', c, "requests");
    InlineListsProject(doc, doc', c, "events");
    InlineListsProject(doc, doc', c, "sends");
  }
}
