/** The hash projection (contract/hash.go): normal forms of schemas and the projection of a document.
    The functions say what is computed; the methods below them are the source's loops, which visit
    map members in an arbitrary order. */
module Hash {
  import opened JsonTrees
  import opened Options
  import opened Sorting
  import opened Strings
  import Utf16

  const REF_PREFIX := "#/components/schemas/"
  const ANNOTATIONS := {
    "title", "description", "default", "examples", "example", "deprecated",
    "readOnly", "writeOnly", "$comment", "$id", "$schema", "format"
  }
  const RESERVED_PREFIX := "benzene:"

  type Components = map<string, Json>

  predicate IsAnnotation(key: string) { key in ANNOTATIONS || "x-" <= key }

  predicate IsReserved(topic: string) { RESERVED_PREFIX <= topic }

  predicate IsRef(v: Json) { v.Obj? && "$ref" in v.members }

  /** The component a reference names; none when it points elsewhere or is not a string. */
  function RefTarget(ref: Json): Option<string> {
    if ref.Str? && REF_PREFIX <= ref.s then Some(ref.s[|REF_PREFIX|..]) else None
  }

  function RefTo(name: string): Json { Obj(map["$ref" := Str(REF_PREFIX + name)]) }

  /** A normal form, and whether the schema was a reference cut at a cycle. */
  datatype Normal = Normal(out: Json, cut: bool)

  /** normalizeSchema. Only membership in the source's path slice is ever tested, so it is a set.
      Every expansion adds a component to the path, so the recursion ends on every components map. */
  function Normalize(v: Json, schemas: Components, path: set<string>): Normal
    decreases schemas.Keys - path, v, 1
  {
    if !v.Obj? then Normal(v, false)
    else if "$ref" in v.members then
      match RefTarget(v.members["$ref"])
      case None => Normal(EMPTY, false)
      case Some(name) =>
        if name in path then Normal(EMPTY, true)
        else if name !in schemas then Normal(EMPTY, false)
        else Normal(Normalize(schemas[name], schemas, path + {name}).out, false)
    else
      var m := v.members;
      var result := map k | k in m && IsKept(k, m[k]) :: Keyword(k, m[k], schemas, path);
      var wrapsCut :=
        && "allOf" in m && m["allOf"].Arr? && |m["allOf"].items| == 1
        && Normalize(m["allOf"].items[0], schemas, path).cut;
      if wrapsCut && IsNullableWrapper(result) then Normal(EMPTY, false)
      else Normal(Obj(result), false)
  }

  /** The members a normal form keeps: no annotation, no empty properties, no empty required. */
  predicate IsKept(key: string, v: Json) {
    && !IsAnnotation(key)
    && !(key == "properties" && v == EMPTY)
    && !(key == "required" && v == Arr([]))
  }

  /** The normal form of one keyword's value. */
  function Keyword(key: string, v: Json, schemas: Components, path: set<string>): Json
    decreases schemas.Keys - path, v, 2
  {
    if key == "properties" && v.Obj? then
      Obj(map p | p in v.members :: Normalize(v.members[p], schemas, path).out)
    else if key in {"items", "additionalProperties", "not"} then
      Normalize(v, schemas, path).out
    else if key in {"allOf", "anyOf", "oneOf"} && v.Arr? then
      Arr(seq(|v.items|, i requires 0 <= i < |v.items| => Normalize(v.items[i], schemas, path).out))
    else if key == "required" && IsStrings(v) then
      Arr(StableSort(v.items, StrLess))
    else if key == "discriminator" && v.Obj? then
      Obj(v.members - {"mapping"})
    else v
  }

  predicate IsNullableWrapper(result: map<string, Json>) {
    && "nullable" in result && result["nullable"] == Bool(true)
    && forall k | k in result :: k in {"nullable", "allOf", "type"}
  }

  predicate IsStrings(v: Json) {
    v.Arr? && forall i | 0 <= i < |v.items| :: v.items[i].Str?
  }

  function Text(v: Json): string { if v.Str? then v.s else "" }

  predicate StrLess(a: Json, b: Json) { Utf16.Less(Text(a), Text(b)) }

  // ---------------------------------------------------------------- projection

  /** The members each list keeps. */
  function EntryMembers(list: string): set<string> {
    if list == "requests" then {"topic", "version", "httpMappings", "request", "response"}
    else if list == "events" then {"topic", "version", "message"}
    else if list == "sends" then {"topic", "version", "request", "response"}
    else {}
  }

  const SCHEMA_MEMBERS := {"request", "response", "message"}

  function ProjectMember(member: string, v: Json, schemas: Components): Json {
    if member in SCHEMA_MEMBERS then Normalize(v, schemas, {}).out
    else if member == "httpMappings" then NormalizeMappings(v)
    else v
  }

  function ProjectEntry(list: string, entry: map<string, Json>, schemas: Components): Json {
    Obj(map k | k in EntryMembers(list) && k in entry :: ProjectMember(k, entry[k], schemas))
  }

  /** The entries a list keeps, in document order: objects whose topic is not reserved. */
  predicate IsListed(item: Json) {
    item.Obj? && !IsReserved(MemberString(item.members, "topic"))
  }

  function ProjectListed(list: string, item: Json, schemas: Components): seq<Json> {
    if IsListed(item) then [ProjectEntry(list, item.members, schemas)] else []
  }

  function ProjectEntries(list: string, items: seq<Json>, schemas: Components): seq<Json> {
    FlatMap((item: Json) => ProjectListed(list, item, schemas), items)
  }

  /** entryLess: by topic, then version, an absent version first. */
  predicate EntryLess(a: Json, b: Json) {
    var ma, mb := AsObject(a), AsObject(b);
    var ta, tb := MemberString(ma, "topic"), MemberString(mb, "topic");
    if ta != tb then Utf16.Less(ta, tb)
    else if ("version" in ma) != ("version" in mb) then "version" !in ma
    else Utf16.Less(MemberString(ma, "version"), MemberString(mb, "version"))
  }

  function SchemasOf(doc: map<string, Json>): Components {
    MemberObject(MemberObject(doc, "components"), "schemas")
  }

  function ProjectList(doc: map<string, Json>, list: string): Json {
    Arr(StableSort(ProjectEntries(list, MemberItems(doc, list), SchemasOf(doc)), EntryLess))
  }

  function Projection(doc: map<string, Json>, withSends: bool): map<string, Json> {
    var base := map["requests" := ProjectList(doc, "requests"), "events" := ProjectList(doc, "events")];
    if withSends then base["sends" := ProjectList(doc, "sends")] else base
  }

  function Mapping(m: map<string, Json>): Json {
    Obj(map["method" := Str(Upper(MemberString(m, "method"))), "path" := Str(MemberString(m, "path"))])
  }

  function Mappings(items: seq<Json>): seq<Json> {
    FlatMap((item: Json) => if item.Obj? then [Mapping(item.members)] else [], items)
  }

  /** Mappings are ordered by (method, path). */
  predicate MappingLess(a: Json, b: Json) {
    var ma, mb := AsObject(a), AsObject(b);
    var ta, tb := MemberString(ma, "method"), MemberString(mb, "method");
    if ta != tb then Utf16.Less(ta, tb)
    else Utf16.Less(MemberString(ma, "path"), MemberString(mb, "path"))
  }

  function NormalizeMappings(v: Json): Json {
    if v.Arr? then Arr(StableSort(Mappings(v.items), MappingLess)) else v
  }

  // ---------------------------------------------------------------- the source's loops

  lemma KeywordsAreKept()
    ensures forall k | k in {"properties", "items", "additionalProperties", "not", "allOf", "anyOf", "oneOf",
                             "required", "discriminator", "nullable", "type"} :: !IsAnnotation(k)
  {
    forall k | k in {"properties", "items", "additionalProperties", "not", "allOf", "anyOf", "oneOf",
                     "required", "discriminator", "nullable", "type"}
      ensures !IsAnnotation(k)
    {
      assert k[0] != 'x';
      assert "x-"[0] == 'x';
    }
  }

  /** v's one-member allOf is cut. */
  predicate SoleCut(v: Json, schemas: Components, path: set<string>)
    requires v.Obj?
  {
    && "allOf" in v.members && v.members["allOf"].Arr? && |v.members["allOf"].items| == 1
    && Normalize(v.members["allOf"].items[0], schemas, path).cut
  }

  /** Normalising an object that is no reference, once its members are known. */
  lemma UnfoldObject(v: Json, result: map<string, Json>, schemas: Components, path: set<string>)
    requires v.Obj? && "$ref" !in v.members
    requires var m := v.members; result == map k | k in m && IsKept(k, m[k]) :: Keyword(k, m[k], schemas, path)
    ensures Normalize(v, schemas, path) ==
      if SoleCut(v, schemas, path) && IsNullableWrapper(result) then Normal(EMPTY, false)
      else Normal(Obj(result), false)
  {
    var m := v.members;
    assert result == map k | k in m && IsKept(k, m[k]) :: Keyword(k, m[k], schemas, path);
  }

  /** normalizeSchema's recursion over a schema object's members, in whatever order the map yields
      them. The result does not depend on that order. */
  method NormalizeSchema(v: Json, schemas: Components, path: set<string>) returns (out: Json, cut: bool)
    ensures Normal(out, cut) == Normalize(v, schemas, path)
    decreases schemas.Keys - path, v, 1
  {
    if !v.Obj? {
      return v, false;
    }
    var m := v.members;
    if "$ref" in m {
      var target := RefTarget(m["$ref"]);
      if target.None? {
        return EMPTY, false;
      }
      var name := target.value;
      if name in path {
        return EMPTY, true;
      }
      if name !in schemas {
        return EMPTY, false;
      }
      var normalized, _ := NormalizeSchema(schemas[name], schemas, path + {name});
      return normalized, false;
    }
    KeywordsAreKept();
    hide Keyword, IsAnnotation, Normalize;
    var result: map<string, Json> := map[];
    var wrapsCut := false;
    var todo := m.Keys;
    while todo != {}
      invariant todo <= m.Keys
      invariant result == map k | k in m && k !in todo && IsKept(k, m[k]) :: Keyword(k, m[k], schemas, path)
      invariant wrapsCut <==> ("allOf" in m && "allOf" !in todo && m["allOf"].Arr? && |m["allOf"].items| == 1
                               && Normalize(m["allOf"].items[0], schemas, path).cut)
    {
      var key :| key in todo;
      todo := todo - {key};
      if IsAnnotation(key) {
        continue;
      }
      if key == "properties" && m[key] == EMPTY {
        continue;
      }
      var value, memberCut := NormalizeKeyword(key, m[key], schemas, path);
      if key == "required" && value == Arr([]) {
        continue;
      }
      if key == "allOf" && memberCut {
        wrapsCut := true;
      }
      result := result[key := value];
    }
    UnfoldObject(v, result, schemas, path);
    if wrapsCut && IsNullableWrapper(result) {
      return EMPTY, false;
    }
    return Obj(result), false;
  }

  /** One arm of the source's switch; memberCut reports a cut one-member allOf. */
  method NormalizeKeyword(key: string, v: Json, schemas: Components, path: set<string>)
    returns (out: Json, memberCut: bool)
    ensures out == Keyword(key, v, schemas, path)
    ensures memberCut <==> key == "allOf" && v.Arr? && |v.items| == 1 && Normalize(v.items[0], schemas, path).cut
    ensures key == "required" ==> (out == Arr([]) <==> v == Arr([]))
    decreases schemas.Keys - path, v, 2
  {
    hide Normalize;
    memberCut := false;
    if key == "properties" && v.Obj? {
      out := NormalizeProperties(v.members, v, schemas, path);
    } else if key in {"items", "additionalProperties", "not"} {
      var normalized, _ := NormalizeSchema(v, schemas, path);
      out := normalized;
    } else if key in {"allOf", "anyOf", "oneOf"} && v.Arr? {
      var normalized, soleCut := NormalizeMembers(v.items, v, schemas, path);
      out := normalized;
      memberCut := key == "allOf" && soleCut;
    } else if key == "required" && IsStrings(v) {
      var sorted := StableSort(v.items, StrLess);
      assert |multiset(sorted)| == |multiset(v.items)|;
      out := Arr(sorted);
    } else if key == "discriminator" && v.Obj? {
      out := Obj(v.members - {"mapping"});
    } else {
      out := v;
    }
  }

  /** The loop over properties. */
  method NormalizeProperties(
      properties: map<string, Json>, ghost v: Json, schemas: Components, path: set<string>) returns (out: Json)
    requires v == Obj(properties)
    ensures out == Obj(map p | p in properties :: Normalize(properties[p], schemas, path).out)
    decreases schemas.Keys - path, v, 1
  {
    hide Normalize;
    var normalized: map<string, Json> := map[];
    var todo := properties.Keys;
    while todo != {}
      invariant todo <= properties.Keys
      invariant normalized == map p | p in properties && p !in todo :: Normalize(properties[p], schemas, path).out
    {
      var name :| name in todo;
      todo := todo - {name};
      var prop, _ := NormalizeSchema(properties[name], schemas, path);
      normalized := normalized[name := prop];
    }
    out := Obj(normalized);
  }

  /** The loop over the members of allOf, anyOf or oneOf; soleCut reports a cut only member. */
  method NormalizeMembers(members: seq<Json>, ghost v: Json, schemas: Components, path: set<string>)
    returns (out: Json, soleCut: bool)
    requires v == Arr(members)
    ensures out == Arr(seq(|members|, i requires 0 <= i < |members| => Normalize(members[i], schemas, path).out))
    ensures soleCut <==> |members| == 1 && Normalize(members[0], schemas, path).cut
    decreases schemas.Keys - path, v, 1
  {
    hide Normalize;
    soleCut := false;
    var normalized: seq<Json> := [];
    var i := 0;
    while i < |members|
      invariant 0 <= i <= |members| && |normalized| == i
      invariant forall j | 0 <= j < i :: normalized[j] == Normalize(members[j], schemas, path).out
      invariant soleCut <==> |members| == 1 && i == 1 && Normalize(members[0], schemas, path).cut
    {
      var member, wasCut := NormalizeSchema(members[i], schemas, path);
      if |members| == 1 && wasCut {
        soleCut := true;
      }
      normalized := normalized + [member];
      i := i + 1;
    }
    out := Arr(normalized);
  }

  /** Projection's loop over one entry's allow-listed members. */
  method ProjectItem(list: string, entry: map<string, Json>, schemas: Components) returns (out: Json)
    ensures out == ProjectEntry(list, entry, schemas)
  {
    var projected: map<string, Json> := map[];
    var todo := EntryMembers(list);
    while todo != {}
      invariant todo <= EntryMembers(list)
      invariant projected == map k | k in EntryMembers(list) - todo && k in entry :: ProjectMember(k, entry[k], schemas)
    {
      var member :| member in todo;
      todo := todo - {member};
      if member in entry {
        var value := entry[member];
        if member in SCHEMA_MEMBERS {
          var normalized, _ := NormalizeSchema(value, schemas, {});
          value := normalized;
        } else if member == "httpMappings" {
          value := NormalizeMappings(value);
        }
        projected := projected[member := value];
      }
    }
    out := Obj(projected);
  }

  lemma NextListed(list: string, raw: seq<Json>, i: nat, schemas: Components)
    requires i < |raw|
    ensures ProjectEntries(list, raw[i..], schemas)
      == ProjectListed(list, raw[i], schemas) + ProjectEntries(list, raw[i + 1..], schemas)
  {
    hide ProjectListed;
    assert raw[i..][1..] == raw[i + 1..];
  }

  lemma NoneListed(list: string, schemas: Components)
    ensures ProjectEntries(list, [], schemas) == []
  {
  }

  /** Projection's loop over one list's entries. */
  method ProjectItems(list: string, raw: seq<Json>, schemas: Components) returns (entries: seq<Json>)
    ensures entries == ProjectEntries(list, raw, schemas)
  {
    hide ProjectEntries, ProjectEntry, IsReserved, MemberString;
    entries := [];
    var i := 0;
    assert raw[0..] == raw;
    while i < |raw|
      invariant 0 <= i <= |raw|
      invariant entries + ProjectEntries(list, raw[i..], schemas) == ProjectEntries(list, raw, schemas)
    {
      var item := raw[i];
      NextListed(list, raw, i, schemas);
      i := i + 1;
      if !item.Obj? || IsReserved(MemberString(item.members, "topic")) {
        continue;
      }
      var projected := ProjectItem(list, item.members, schemas);
      entries := entries + [projected];
    }
    NoneListed(list, schemas);
    assert raw[i..] == [];
  }

  /** Projection's work on one list: keep and project its entries, then sort them. */
  method ProjectOne(doc: map<string, Json>, list: string) returns (sorted: Json)
    ensures sorted == ProjectList(doc, list)
  {
    var entries := ProjectItems(list, MemberItems(doc, list), SchemasOf(doc));
    sorted := Arr(StableSort(entries, EntryLess));
  }

  /** Projection's loop over the lists. */
  method ProjectDocument(doc: map<string, Json>, withSends: bool) returns (p: map<string, Json>)
    ensures p == Projection(doc, withSends)
  {
    var requests := ProjectOne(doc, "requests");
    var events := ProjectOne(doc, "events");
    p := map["requests" := requests, "events" := events];
    if withSends {
      var sends := ProjectOne(doc, "sends");
      p := p["sends" := sends];
    }
  }
}
