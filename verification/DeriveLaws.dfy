/** What Derive promises of a document: it is closed, its schemas are those the deriver can emit, and its
    components are object schemas. */
module DeriveLaws {
  import opened JsonTrees
  import opened Sorting
  import opened SortedNames
  import opened GoTypes
  import opened SchemaDeriver
  import opened DeriverLaws
  import opened Hash
  import opened HashNaming
  import opened HashHoisting
  import opened RefReachability
  import opened Derivation

  // ---------------------------------------------------------------- renaming emitted schemas

  lemma RenameRefsOfRef(name: string, rho: string -> string)
    ensures RenameRefs(RefTo(name), rho) == RefTo(rho(name))
    ensures Rename(RefTo(name), rho) == RefTo(rho(name))
  {
    RefTargetOfName(name);
    assert RefKey(REF_PREFIX + name) == name;
  }

  /** Rewriting every $ref in an emitted schema rewrites the schema positions, and nothing else: no
      property named "$ref" and no entry of required is mistaken for a reference. */
  lemma {:induction false} RenameRefsIsRename(v: Json, rho: string -> string)
    requires Emitted(v)
    ensures RenameRefs(v, rho) == Rename(v, rho)
    decreases v, 0
  {
    if IsRef(v) {
      RenameRefsOfRef(RefName(v), rho);
    } else {
      hide Emitted, RenameRefs, RenameKeyword;
      var m := v.members;
      forall k | k in m ensures RenameRefs(m[k], rho) == RenameKeyword(k, m[k], rho) && k != "$ref" {
        EmittedKeyword(v, k);
        RenameRefsIsRenameKeyword(k, m[k], rho);
      }
      RenameRefsOfObject(m, rho);
    }
  }

  lemma {:induction false} RenameRefsIsRenameKeyword(key: string, v: Json, rho: string -> string)
    requires EmittedAt(key, v)
    ensures RenameRefs(v, rho) == RenameKeyword(key, v, rho)
    decreases v, 1
  {
    hide Emitted, Rename, RenameRefs;
    if key == "properties" {
      var ps := v.members;
      forall p | p in ps ensures p != "$ref" || !ps[p].Str? {}
      RenameRefsOfObject(ps, rho);
      forall p | p in ps ensures RenameRefs(ps[p], rho) == Rename(ps[p], rho) {
        RenameRefsIsRename(ps[p], rho);
      }
    } else if key == "items" || key == "additionalProperties" {
      RenameRefsIsRename(v, rho);
    } else if key == "allOf" {
      RenameRefsIsRename(v.items[0], rho);
      RenameRefsOfOne(v.items[0], rho);
      assert v.items == [v.items[0]];
      assert RenameKeyword(key, v, rho) == Arr([Rename(v.items[0], rho)]);
    } else if key == "required" {
      StringsUnrenamed(v, rho);
    } else {
      ScalarUnrenamed(v, rho);
    }
  }

  lemma RenameRefsOfObject(ps: map<string, Json>, rho: string -> string)
    requires forall p | p in ps :: p != "$ref" || !ps[p].Str?
    ensures RenameRefs(Obj(ps), rho) == Obj(map p | p in ps :: RenameRefs(ps[p], rho))
  {
  }

  lemma RenameRefsOfOne(inner: Json, rho: string -> string)
    ensures RenameRefs(Arr([inner]), rho) == Arr([RenameRefs(inner, rho)])
  {
  }

  lemma ScalarUnrenamed(v: Json, rho: string -> string)
    requires v.Str? || v.Bool?
    ensures RenameRefs(v, rho) == v
  {
  }

  /** What an emitted schema holds under each of its keywords. */
  ghost predicate EmittedAt(key: string, v: Json) {
    if key == "properties" then v.Obj? && forall p | p in v.members :: v.members[p].Obj? && Emitted(v.members[p])
    else if key == "items" || key == "additionalProperties" then Emitted(v)
    else if key == "allOf" then v.Arr? && |v.items| == 1 && Emitted(v.items[0])
    else if key == "required" then IsStrings(v)
    else key in {"type", "format", "nullable"} && (v.Str? || v.Bool?)
  }

  lemma EmittedKeyword(v: Json, k: string)
    requires Emitted(v) && !IsRef(v) && k in v.members
    ensures EmittedAt(k, v.members[k]) && k != "$ref"
  {
  }

  /** Renaming an emitted schema gives an emitted schema. */
  lemma {:induction false} RenamedEmitted(v: Json, rho: string -> string)
    requires Emitted(v)
    ensures Emitted(RenameRefs(v, rho))
    decreases v, 0
  {
    if IsRef(v) {
      RenameRefsOfRef(RefName(v), rho);
      RefTargetOfName(rho(RefName(v)));
    } else if "allOf" in v.members {
      var inner := v.members["allOf"].items[0];
      RenamedEmitted(inner, rho);
      WrapperRenamed(inner, rho);
      WrapperEmitted(RenameRefs(inner, rho));
    } else {
      var m, w := v.members, RenameRefs(v, rho).members;
      forall k | k in m ensures EmittedAt(k, w[k]) && (w[k] == EMPTY ==> m[k] == EMPTY) {
        EmittedKeyword(v, k);
        RenamedEmittedAt(k, m[k], rho);
      }
      forall k | k in m && k in {"nullable", "type", "format"} ensures w[k] == m[k] {
        EmittedKeyword(v, k);
        assert RenameRefs(m[k], rho) == m[k];
      }
      assert w.Keys == m.Keys;
      EmittedFromKeywords(m, w);
    }
  }

  lemma WrapperRenamed(inner: Json, rho: string -> string)
    ensures RenameRefs(Wrapper(inner), rho) == Wrapper(RenameRefs(inner, rho))
  {
    RenameRefsOfOne(inner, rho);
    assert RenameRefs(Str("object"), rho) == Str("object") && RenameRefs(Bool(true), rho) == Bool(true);
    assert "type"[0] != "$ref"[0] && "nullable"[0] != "$ref"[0] && "allOf"[0] != "$ref"[0];
    var m := Wrapper(inner).members;
    RenameRefsOfObject(m, rho);
    hide RenameRefs;
    assert (map k | k in m :: RenameRefs(m[k], rho)) == Wrapper(RenameRefs(inner, rho)).members;
  }

  lemma WrapperEmitted(inner: Json)
    requires Emitted(inner)
    ensures Emitted(Wrapper(inner))
  {
    assert Held(inner, Refs(inner));
    HeldWrapper(inner, Refs(inner));
  }

  lemma EmittedFromKeywords(m: map<string, Json>, w: map<string, Json>)
    requires Emitted(Obj(m)) && "$ref" !in m && "allOf" !in m && w.Keys == m.Keys
    requires forall k | k in m :: EmittedAt(k, w[k]) && (w[k] == EMPTY ==> m[k] == EMPTY)
    requires forall k | k in m && k in {"nullable", "type", "format"} :: w[k] == m[k]
    ensures Emitted(Obj(w))
  {
  }

  lemma {:induction false} RenamedEmittedAt(key: string, v: Json, rho: string -> string)
    requires EmittedAt(key, v)
    ensures EmittedAt(key, RenameRefs(v, rho)) && (RenameRefs(v, rho) == EMPTY ==> v == EMPTY)
    decreases v, 1
  {
    hide Emitted;
    if key == "properties" {
      var w := RenameRefs(v, rho);
      assert w.members.Keys == v.members.Keys;
      forall p | p in v.members ensures w.members[p].Obj? && Emitted(w.members[p]) {
        RenamedEmitted(v.members[p], rho);
        assert v.members[p].Obj?;
      }
      if w == EMPTY { assert v.members.Keys == {}; }
    } else if key == "items" || key == "additionalProperties" {
      RenamedEmitted(v, rho);
      if v.Obj? && RenameRefs(v, rho) == EMPTY { assert RenameRefs(v, rho).members.Keys == v.members.Keys; }
    } else if key == "allOf" {
      RenamedEmitted(v.items[0], rho);
    } else if key == "required" {
      StringsUnrenamed(v, rho);
    }
  }

  lemma StringsUnrenamed(v: Json, rho: string -> string)
    requires IsStrings(v)
    ensures RenameRefs(v, rho) == v
  {
  }

  /** The references of a renamed schema are the renamed references. */
  lemma {:induction false} RenamedRefs(v: Json, rho: string -> string, r: string)
    requires r in Refs(Rename(v, rho))
    ensures exists n :: n in Refs(v) && rho(n) == r
    decreases v, 0
  {
    if IsRef(v) {
      var target := RefTarget(v.members["$ref"]);
      if target.Some? {
        RefTargetOfName(rho(target.value));
      }
    } else {
      var w := Rename(v, rho);
      var k :| k in w.members && r in KeywordRefs(k, w.members[k]);
      RenamedKeywordRefs(k, v.members[k], rho, r);
      var n :| n in KeywordRefs(k, v.members[k]) && rho(n) == r;
      assert n in Refs(v);
    }
  }

  lemma {:induction false} RenamedKeywordRefs(key: string, v: Json, rho: string -> string, r: string)
    requires r in KeywordRefs(key, RenameKeyword(key, v, rho))
    ensures exists n :: n in KeywordRefs(key, v) && rho(n) == r
    decreases v, 1
  {
    var w := RenameKeyword(key, v, rho);
    if key == "properties" && v.Obj? {
      var p :| p in w.members && r in Refs(w.members[p]);
      RenamedRefs(v.members[p], rho, r);
      var n :| n in Refs(v.members[p]) && rho(n) == r;
      assert n in KeywordRefs(key, v);
    } else if key in {"items", "additionalProperties", "not"} {
      RenamedRefs(v, rho, r);
    } else if key in {"allOf", "anyOf", "oneOf"} && v.Arr? {
      var i :| 0 <= i < |w.items| && r in Refs(w.items[i]);
      RenamedRefs(v.items[i], rho, r);
      var n :| n in Refs(v.items[i]) && rho(n) == r;
      assert n in KeywordRefs(key, v);
    }
  }

  // ---------------------------------------------------------------- closure

  lemma PublishedRefs(v: Json, keys: set<string>, names: map<string, string>)
    requires Held(v, keys) && keys == names.Keys
    ensures Refs(RenameRefs(v, PublicName(names))) <= NamesOf(names)
  {
    hide Emitted;
    var rho := PublicName(names);
    RenameRefsIsRename(v, rho);
    forall r | r in Refs(RenameRefs(v, rho)) ensures r in NamesOf(names) {
      RenamedRefs(v, rho, r);
      var n :| n in Refs(v) && rho(n) == r;
      assert names[n] == r;
    }
  }

  ghost predicate EntryClosed(e: Entry, components: map<string, Json>) {
    forall i | 0 <= i < |SchemasIn(e)| :: Refs(SchemasIn(e)[i]) <= components.Keys
  }

  /** Every reference in a document names a component of the document. */
  ghost predicate Closed(doc: Document) {
    && (forall e | e in doc.requests + doc.events + doc.sends :: EntryClosed(e, doc.components))
    && (forall n | n in doc.components :: Refs(doc.components[n]) <= doc.components.Keys)
  }

  lemma PublishedEntriesClosed(env: Types, es: seq<Entry>, b: Book, components: map<string, Json>, e: Entry)
    requires BookOk(env, b) && EntriesHeld(es, b.schemas.Keys) && components.Keys == NamesOf(b.names)
    requires e in PublishEntries(es, PublicName(b.names))
    ensures EntryClosed(e, components)
  {
    hide Emitted, Refs;
    var rho := PublicName(b.names);
    var i :| 0 <= i < |es| && e == PublishEntry(es[i], rho);
    assert EntryHeld(es[i], b.schemas.Keys);
    PublishedRefs(es[i].request, b.schemas.Keys, b.names);
    if es[i].response.Some? {
      PublishedRefs(es[i].response.value, b.schemas.Keys, b.names);
    }
  }

  /** A derived document has no dangling reference. */
  lemma DerivedIsClosed(env: Types, requests: seq<Declared>, outbound: Outbound, degraded: bool)
    requires Finite(env) && TypesInRange(env, requests)
    requires TypesInRange(env, outbound.events) && TypesInRange(env, outbound.sends)
    ensures Complete(env, Draft(env, requests, outbound))
    ensures Closed(PublishedDocument(Draft(env, requests, outbound), degraded))
  {
    hide Emitted, Refs, Draft, RenameRefs, EntryClosed;
    DraftIsComplete(env, requests, outbound);
    var d := Draft(env, requests, outbound);
    var doc := PublishedDocument(d, degraded);
    var b := d.book;
    forall e | e in doc.requests + doc.events + doc.sends ensures EntryClosed(e, doc.components) {
      if e in doc.requests {
        PublishedEntriesClosed(env, d.requests, b, doc.components, e);
      } else if e in doc.events {
        PublishedEntriesClosed(env, d.events, b, doc.components, e);
      } else {
        PublishedEntriesClosed(env, d.sends, b, doc.components, e);
      }
    }
    ComponentsClosed(env, d);
  }

  lemma ComponentsClosed(env: Types, d: Drafts)
    requires Complete(env, d)
    ensures var components := PublishedComponents(d.book.names, Finished(d.book));
      forall n | n in components :: Refs(components[n]) <= components.Keys
  {
    hide Emitted, Refs, RenameRefs, IsBody;
    var b := d.book;
    forall n | n in NamesOf(b.names)
      ensures Refs(RenameRefs(b.schemas[FirstKey(b.names, n)].value, PublicName(b.names))) <= NamesOf(b.names)
    {
      var k := FirstKey(b.names, n);
      assert Held(b.schemas[k].value, b.schemas.Keys);
      PublishedRefs(b.schemas[k].value, b.schemas.Keys, b.names);
    }
  }

  ghost predicate EntryEmitted(e: Entry) {
    forall i | 0 <= i < |SchemasIn(e)| :: Emitted(SchemasIn(e)[i])
  }

  /** Every schema of a derived document is one the deriver can emit. */
  lemma DerivedIsEmitted(env: Types, requests: seq<Declared>, outbound: Outbound, degraded: bool)
    requires Finite(env) && TypesInRange(env, requests)
    requires TypesInRange(env, outbound.events) && TypesInRange(env, outbound.sends)
    ensures Complete(env, Draft(env, requests, outbound))
    ensures var doc := PublishedDocument(Draft(env, requests, outbound), degraded);
      && (forall e | e in doc.requests + doc.events + doc.sends :: EntryEmitted(e))
      && (forall n | n in doc.components :: Emitted(doc.components[n]))
  {
    hide Emitted, Refs, Draft;
    DraftIsComplete(env, requests, outbound);
    var d := Draft(env, requests, outbound);
    var doc, b := PublishedDocument(d, degraded), d.book;
    forall e | e in doc.requests + doc.events + doc.sends ensures EntryEmitted(e) {
      PublishedEntryEmitted(if e in doc.requests then d.requests else if e in doc.events then d.events else d.sends,
        b.schemas.Keys, PublicName(b.names), e);
    }
    forall n | n in doc.components ensures Emitted(doc.components[n]) {
      var k := FirstKey(b.names, n);
      assert Held(b.schemas[k].value, b.schemas.Keys);
      RenamedEmitted(b.schemas[k].value, PublicName(b.names));
    }
  }

  lemma PublishedEntryEmitted(es: seq<Entry>, keys: set<string>, rho: string -> string, e: Entry)
    requires EntriesHeld(es, keys) && e in PublishEntries(es, rho)
    ensures EntryEmitted(e)
  {
    hide Emitted, Refs;
    var i :| 0 <= i < |es| && e == PublishEntry(es[i], rho);
    assert EntryHeld(es[i], keys);
    RenamedEmitted(es[i].request, rho);
    if es[i].response.Some? {
      RenamedEmitted(es[i].response.value, rho);
    }
  }

  /** The components of a derived document are object schemas that refer to one another only. */
  lemma DerivedComponentsAreBodies(env: Types, requests: seq<Declared>, outbound: Outbound, degraded: bool)
    requires Finite(env) && TypesInRange(env, requests)
    requires TypesInRange(env, outbound.events) && TypesInRange(env, outbound.sends)
    ensures Complete(env, Draft(env, requests, outbound))
    ensures ClosedBodies(PublishedDocument(Draft(env, requests, outbound), degraded).components)
  {
    DerivedIsClosed(env, requests, outbound, degraded);
    DerivedIsEmitted(env, requests, outbound, degraded);
    hide Emitted, Refs, Draft, IsBody;
    DraftIsComplete(env, requests, outbound);
    var d := Draft(env, requests, outbound);
    var components, b := PublishedDocument(d, degraded).components, d.book;
    forall n | n in components ensures IsBody(components[n]) {
      RenamedBody(b.schemas[FirstKey(b.names, n)].value, PublicName(b.names));
    }
  }

  lemma RenamedBody(v: Json, rho: string -> string)
    requires IsBody(v)
    ensures IsBody(RenameRefs(v, rho))
  {
    var w := RenameRefs(v, rho);
    assert w.members.Keys == v.members.Keys;
    assert "type"[0] != "$ref"[0];
    assert w.members["type"] == RenameRefs(Str("object"), rho);
  }
}
