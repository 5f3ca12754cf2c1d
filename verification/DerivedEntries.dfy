/** What a derived document says of the declarations it was derived from: which it lists, which of them have
    a response, whose schema each schema is, and which values those schemas admit. */
module DerivedEntries {
  import opened JsonTrees
  import opened Options
  import opened Sorting
  import opened SortedNames
  import opened GoTypes
  import opened SchemaDeriver
  import opened DeriverLaws
  import opened DeriverReach
  import opened Derivation
  import opened SchemaShapes
  import opened Marshaling
  import opened Hash
  import opened HashHoisting
  import opened JsonSchemaTranslation

  /** The declarations of topics that are not Benzene's own, in order. */
  function Unreserved(ds: seq<Declared>): (us: seq<Declared>)
    ensures forall d | d in us :: d in ds
  {
    if ds == [] then []
    else (if "benzene:" <= ds[0].topic then [] else [ds[0]]) + Unreserved(ds[1..])
  }

  /** A declaration whose types are in the table. */
  predicate InTable(env: Types, d: Declared) {
    d.request < |env| && (d.response.Some? ==> d.response.value < |env|)
  }

  // ---------------------------------------------------------------- drafts

  /** The draft of a declaration, whatever has been derived before. */
  function DraftAlone(env: Types, d: Declared, responds: bool): Entry
    requires Finite(env) && InTable(env, d) && (responds ==> d.response.Some?)
  {
    Entry(d.topic, d.version, SchemaAlone(env, d.request, {}),
      if responds then Some(SchemaAlone(env, d.response.value, {})) else None)
  }

  /** An unnamed struct without fields. */
  predicate EmptyUnnamed(t: GoType) { t.kind.Struct? && t.kind.hollow && t.name == "" }

  predicate Responds(env: Types, role: Role, d: Declared)
    requires InTable(env, d)
  {
    d.response.Some? && (role.SendRole? || (role.RequestRole? && !EmptyUnnamed(env[d.response.value])))
  }

  lemma EntryAlone(env: Types, role: Role, d: Declared, b: Book)
    requires Finite(env) && InTable(env, d)
    ensures TypesInRange(env, [d]) && DraftEntry(env, role, d, b).0 == DraftAlone(env, d, Responds(env, role, d))
  {
    hide SchemaOf;
    SameSchema(env, d.request, {}, b, NEW_BOOK);
    if d.response.Some? {
      SameSchema(env, d.response.value, {}, SchemaOf(env, d.request, {}, b).1, NEW_BOOK);
    }
  }

  /** Each declaration's draft by itself. */
  function DraftsAlone(env: Types, role: Role, ds: seq<Declared>): (es: seq<Entry>)
    requires Finite(env) && TypesInRange(env, ds)
    ensures |es| == |ds| && forall i | 0 <= i < |ds| :: es[i] == DraftAlone(env, ds[i], Responds(env, role, ds[i]))
  {
    if ds == [] then [] else [DraftAlone(env, ds[0], Responds(env, role, ds[0]))] + DraftsAlone(env, role, ds[1..])
  }

  /** A list drafts its unreserved declarations, in order, each by itself. */
  lemma {:induction false} EntriesAlone(env: Types, role: Role, ds: seq<Declared>, b: Book, acc: seq<Entry>)
    requires Finite(env) && TypesInRange(env, ds)
    ensures DraftEntries(env, role, ds, b, acc).0 == acc + DraftsAlone(env, role, Unreserved(ds))
  {
    hide DraftAlone, Responds, DraftEntry, Finite, DraftEntries, DraftsAlone, Unreserved;
    var us := Unreserved(ds);
    if ds == [] {
      NoEntries(env, role, b, acc);
    } else if "benzene:" <= ds[0].topic {
      NextEntry(env, role, ds, b, acc);
      EntriesAlone(env, role, ds[1..], b, acc);
      assert [] + Unreserved(ds[1..]) == Unreserved(ds[1..]);
    } else {
      NextEntry(env, role, ds, b, acc);
      var (entry, b') := DraftEntry(env, role, ds[0], b);
      EntriesAlone(env, role, ds[1..], b', acc + [entry]);
      assert us[1..] == Unreserved(ds[1..]);
      NextAlone(env, role, us);
      assert acc + [entry] + DraftsAlone(env, role, us[1..]) == acc + ([entry] + DraftsAlone(env, role, us[1..]));
    }
  }

  lemma NoEntries(env: Types, role: Role, b: Book, acc: seq<Entry>)
    requires Finite(env)
    ensures Unreserved([]) == [] && DraftEntries(env, role, [], b, acc).0 == acc + DraftsAlone(env, role, [])
  {
    assert acc + [] == acc;
  }

  lemma NextEntry(env: Types, role: Role, ds: seq<Declared>, b: Book, acc: seq<Entry>)
    requires Finite(env) && TypesInRange(env, ds) && ds != []
    ensures TypesInRange(env, [ds[0]])
    ensures Unreserved(ds) == (if "benzene:" <= ds[0].topic then [] else [ds[0]]) + Unreserved(ds[1..])
    ensures DraftEntry(env, role, ds[0], b).0 == DraftAlone(env, ds[0], Responds(env, role, ds[0]))
    ensures DraftEntries(env, role, ds, b, acc) == (
      if "benzene:" <= ds[0].topic then DraftEntries(env, role, ds[1..], b, acc)
      else var (entry, b') := DraftEntry(env, role, ds[0], b); DraftEntries(env, role, ds[1..], b', acc + [entry]))
  {
    EntryAlone(env, role, ds[0], b);
    hide DraftAlone, Responds, DraftEntry, Finite;
  }

  lemma NextAlone(env: Types, role: Role, us: seq<Declared>)
    requires Finite(env) && TypesInRange(env, us) && us != []
    ensures DraftsAlone(env, role, us)
      == [DraftAlone(env, us[0], Responds(env, role, us[0]))] + DraftsAlone(env, role, us[1..])
  {
    hide DraftAlone, Responds;
  }

  // ---------------------------------------------------------------- published entries

  /** e publishes d: the schemas of its types under the public names, the response when one is due. */
  ghost predicate Describes(env: Types, d: Declared, due: bool, rho: string -> string, e: Entry)
    requires Finite(env) && InTable(env, d) && (due ==> d.response.Some?)
  {
    && e.topic == d.topic && e.version == d.version
    && e.request == RenameRefs(SchemaAlone(env, d.request, {}), rho)
    && (e.response.Some? <==> due)
    && (due ==> e.response.value == RenameRefs(SchemaAlone(env, d.response.value, {}), rho))
  }

  lemma PublishedDescribe(env: Types, role: Role, ds: seq<Declared>, b: Book, rho: string -> string)
    requires Finite(env) && TypesInRange(env, ds)
    ensures var es, us := PublishEntries(DraftEntries(env, role, ds, b, []).0, rho), Unreserved(ds);
      |es| == |us| && forall i | 0 <= i < |us| :: Describes(env, us[i], Responds(env, role, us[i]), rho, es[i])
  {
    hide DraftEntries, RenameRefs, SchemaAlone, Responds;
    EntriesAlone(env, role, ds, b, []);
    assert [] + DraftsAlone(env, role, Unreserved(ds)) == DraftsAlone(env, role, Unreserved(ds));
  }

  /** The requests, in order; each responds unless its response is an unnamed struct without fields. */
  ghost predicate ListsRequests(env: Types, ds: seq<Declared>, rho: string -> string, es: seq<Entry>)
    requires Finite(env) && TypesInRange(env, ds)
  {
    |es| == |ds| && forall i | 0 <= i < |ds| ::
      var due := ds[i].response.Some? && !EmptyUnnamed(env[ds[i].response.value]);
      Describes(env, ds[i], due, rho, es[i])
  }

  /** The events, in order; none responds. */
  ghost predicate ListsEvents(env: Types, ds: seq<Declared>, rho: string -> string, es: seq<Entry>)
    requires Finite(env) && TypesInRange(env, ds)
  {
    |es| == |ds| && forall i | 0 <= i < |ds| :: Describes(env, ds[i], false, rho, es[i])
  }

  /** The sends, in order; each has the response declared, if one is. */
  ghost predicate ListsSends(env: Types, ds: seq<Declared>, rho: string -> string, es: seq<Entry>)
    requires Finite(env) && TypesInRange(env, ds)
  {
    |es| == |ds| && forall i | 0 <= i < |ds| :: Describes(env, ds[i], ds[i].response.Some?, rho, es[i])
  }

  lemma PublishedLists(env: Types, ds: seq<Declared>, b: Book, rho: string -> string)
    requires Finite(env) && TypesInRange(env, ds)
    ensures ListsRequests(env, Unreserved(ds), rho, PublishEntries(DraftEntries(env, RequestRole, ds, b, []).0, rho))
    ensures ListsEvents(env, Unreserved(ds), rho, PublishEntries(DraftEntries(env, EventRole, ds, b, []).0, rho))
    ensures ListsSends(env, Unreserved(ds), rho, PublishEntries(DraftEntries(env, SendRole, ds, b, []).0, rho))
  {
    hide DraftEntries, Describes, PublishEntries, Unreserved, Finite;
    PublishedDescribe(env, RequestRole, ds, b, rho);
    PublishedDescribe(env, EventRole, ds, b, rho);
    PublishedDescribe(env, SendRole, ds, b, rho);
  }

  /** A published document lists the unreserved declarations, in order, each with its topic, its version and
      the published schemas of its types. A request has a response when one is declared that is not an unnamed
      struct without fields, a send when one is declared, an event never. */
  lemma DerivedListsDeclarations(env: Types, requests: seq<Declared>, outbound: Outbound, degraded: bool)
    requires Finite(env) && TypesInRange(env, requests)
    requires TypesInRange(env, outbound.events) && TypesInRange(env, outbound.sends)
    ensures Complete(env, Draft(env, requests, outbound))
    ensures var d := Draft(env, requests, outbound);
      var doc, rho := PublishedDocument(d, degraded), PublicName(d.book.names);
      && ListsRequests(env, Unreserved(requests), rho, doc.requests)
      && ListsEvents(env, Unreserved(outbound.events), rho, doc.events)
      && ListsSends(env, Unreserved(outbound.sends), rho, doc.sends) && doc.degraded == degraded
  {
    DraftIsComplete(env, requests, outbound);
    var rho := PublicName(Draft(env, requests, outbound).book.names);
    hide DraftEntries, ListsRequests, ListsEvents, ListsSends, PublishEntries, PublishedComponents, Complete, Finite;
    var b1 := DraftEntries(env, RequestRole, requests, NEW_BOOK, []).1;
    var b2 := DraftEntries(env, EventRole, outbound.events, b1, []).1;
    PublishedLists(env, requests, NEW_BOOK, rho);
    PublishedLists(env, outbound.events, b1, rho);
    PublishedLists(env, outbound.sends, b2, rho);
  }

  // ---------------------------------------------------------------- what the schemas admit

  lemma EntryHoldsBodies(env: Types, role: Role, d: Declared, b: Book)
    requires Finite(env) && DistinctProperties(env) && InTable(env, d) && BookOk(env, b) && HoldsBodies(env, b)
    ensures TypesInRange(env, [d]) && BookOk(env, DraftEntry(env, role, d, b).1)
    ensures HoldsBodies(env, DraftEntry(env, role, d, b).1)
  {
    hide SchemaOf, BookOk, HoldsBodies, DistinctProperties, Finite;
    DraftEntryKeeps(env, role, d, b);
    SchemaKeeps(env, d.request, {}, b);
    SchemaHoldsBodies(env, d.request, {}, b);
    if ResponseType(env, role, d).Some? {
      SchemaHoldsBodies(env, d.response.value, {}, SchemaOf(env, d.request, {}, b).1);
    }
  }

  lemma {:induction false} EntriesHoldBodies(env: Types, role: Role, ds: seq<Declared>, b: Book, acc: seq<Entry>)
    requires Finite(env) && DistinctProperties(env) && TypesInRange(env, ds) && BookOk(env, b) && HoldsBodies(env, b)
    ensures BookOk(env, DraftEntries(env, role, ds, b, acc).1)
    ensures HoldsBodies(env, DraftEntries(env, role, ds, b, acc).1)
  {
    hide BookOk, HoldsBodies, DistinctProperties, Finite, DraftEntry;
    if ds != [] {
      if IsReserved(ds[0].topic) {
        EntriesHoldBodies(env, role, ds[1..], b, acc);
      } else {
        EntryHoldsBodies(env, role, ds[0], b);
        var (entry, b') := DraftEntry(env, role, ds[0], b);
        EntriesHoldBodies(env, role, ds[1..], b', acc + [entry]);
      }
    }
  }

  /** Every component of a finished draft is the object schema of the struct it was hoisted for. */
  lemma DraftFinishes(env: Types, requests: seq<Declared>, outbound: Outbound)
    requires Finite(env) && DistinctProperties(env) && DistinctKeys(env) && TypesInRange(env, requests)
    requires TypesInRange(env, outbound.events) && TypesInRange(env, outbound.sends)
    ensures var d := Draft(env, requests, outbound);
      Complete(env, d) && HoldsBodies(env, d.book) && FinishedFor(env, Finished(d.book))
  {
    DraftIsComplete(env, requests, outbound);
    NewHoldsBodies(env);
    hide BookOk, HoldsBodies, DistinctProperties, Finite, DraftEntries, DistinctKeys, Complete, FinishedFor;
    var b1 := DraftEntries(env, RequestRole, requests, NEW_BOOK, []).1;
    var b2 := DraftEntries(env, EventRole, outbound.events, b1, []).1;
    EntriesHoldBodies(env, RequestRole, requests, NEW_BOOK, []);
    EntriesHoldBodies(env, EventRole, outbound.events, b1, []);
    EntriesHoldBodies(env, SendRole, outbound.sends, b2, []);
    CompleteIsFinished(env, Draft(env, requests, outbound));
  }

  lemma NewHoldsBodies(env: Types)
    requires Finite(env)
    ensures BookOk(env, NEW_BOOK) && HoldsBodies(env, NEW_BOOK)
  {
  }

  lemma CompleteIsFinished(env: Types, d: Drafts)
    requires Finite(env) && DistinctKeys(env) && Complete(env, d) && HoldsBodies(env, d.book)
    ensures FinishedFor(env, Finished(d.book))
  {
    hide Held, IsBody, IsObjectOf, EntriesHeld;
    var b, components := d.book, Finished(d.book);
    forall n | n in components ensures Held(components[n], components.Keys) && IsBody(components[n]) {
      assert b.schemas[n].Some?;
    }
    forall t: TypeId | t < |env| && Hoisted(env[t]) && Plain(env[t]) && env[t].qualified in components
      ensures IsObjectOf(env, FieldsOfType(env, t), {}, components[env[t].qualified])
    {
      var key := env[t].qualified;
      assert b.schemas[key].Some? && key in b.types && b.types[key] == t;
    }
  }

  /** A draft lists the schema: as a request, a message or a response. */
  ghost predicate ListsSchema(d: Drafts, s: Json) {
    exists e | e in Uses(d) :: e.request == s || e.response == Some(s)
  }

  /** A listed schema admits exactly the values of its type's shape, for every value and every number of
      references that may be followed beyond the value's height. What encoding/json writes for the type is
      admitted exactly when no nil slice, map or text-marshaling interface is written in it as null, and no
      marshaler writes something other than the string it is asked for. */
  lemma DraftedSchemaAdmitsWritten(env: Types, requests: seq<Declared>, outbound: Outbound, t: TypeId, x: Json, h: nat,
      n: nat, reading: Reading)
    requires Finite(env) && DistinctProperties(env) && DistinctKeys(env) && TypesInRange(env, requests)
    requires TypesInRange(env, outbound.events) && TypesInRange(env, outbound.sends)
    requires t < |env| && ListsSchema(Draft(env, requests, outbound), SchemaAlone(env, t, {}))
    requires HeightAtMost(x, h) && n > h
    ensures var admitted := ValidOpenApi(n, SchemaAlone(env, t, {}), x,
          Finished(Draft(env, requests, outbound).book), reading);
      && (admitted <==> Conforms(env, t, {}, x, reading.integral))
      && (Writes(env, t, {}, x, reading.integral, true) ==>
            (admitted <==> Writes(env, t, {}, x, reading.integral, false)))
  {
    var d, s := Draft(env, requests, outbound), SchemaAlone(env, t, {});
    DraftFinishes(env, requests, outbound);
    hide Draft, Finite, DistinctProperties, DistinctKeys, ValidOpenApi, Conforms, Writes, FinishedFor, HeightAtMost,
      SchemaAlone, Held, BookOk, HoldsBodies, TypesInRange;
    assert Held(s, Finished(d.book).Keys);
    SchemaConforms(env, t, {}, x, h, n, Finished(d.book), reading);
    if Writes(env, t, {}, x, reading.integral, true) {
      WrittenConforms(env, t, {}, x, reading.integral);
    }
  }

  // ---------------------------------------------------------------- components and collisions

  /** The published schema of a component name is that of a struct with the name, the first by key of those a
      declaration reaches: an object with the struct's properties, under the public names. */
  ghost predicate PublishesStruct(env: Types, d: Drafts, n: string, s: Json)
    requires Finite(env)
  {
    exists t: TypeId, body ::
      && t < |env| && Hoisted(env[t]) && env[t].component == n && env[t].qualified in d.book.names
      && (forall k | k in d.book.names && d.book.names[k] == n && k != env[t].qualified ::
            CodePointLess(env[t].qualified, k))
      && IsObjectOf(env, FieldsOfType(env, t), {}, body) && s == RenameRefs(body, PublicName(d.book.names))
  }

  /** A published document has a component for each name its structs claim, and publishes the struct's. */
  lemma DerivedPublishesStructs(env: Types, requests: seq<Declared>, outbound: Outbound, degraded: bool)
    requires Finite(env) && DistinctProperties(env) && DistinctKeys(env) && TypesInRange(env, requests)
    requires TypesInRange(env, outbound.events) && TypesInRange(env, outbound.sends)
    ensures Complete(env, Draft(env, requests, outbound))
    ensures var d := Draft(env, requests, outbound);
      var components := PublishedDocument(d, degraded).components;
      && (forall t: TypeId | t < |env| && HasComponent(env, t) && env[t].qualified in d.book.names ::
            env[t].component in components)
      && (forall n | n in components :: PublishesStruct(env, d, n, components[n]))
  {
    DraftFinishes(env, requests, outbound);
    var d := Draft(env, requests, outbound);
    hide Draft, Held, RenameRefs, IsObjectOf, PublishesStruct, FinishedFor;
    forall n | n in NamesOf(d.book.names)
      ensures PublishesStruct(env, d, n, PublishedComponents(d.book.names, Finished(d.book))[n])
    {
      PublishesFirst(env, d, n);
    }
  }

  lemma PublishesFirst(env: Types, d: Drafts, n: string)
    requires Finite(env) && Complete(env, d) && HoldsBodies(env, d.book) && n in NamesOf(d.book.names)
    ensures PublishesStruct(env, d, n, PublishedComponents(d.book.names, Finished(d.book))[n])
  {
    hide Held, RenameRefs, IsObjectOf, EntriesHeld, IsBody;
    var key := FirstKey(d.book.names, n);
    var t := d.book.types[key];
    assert d.book.schemas[key].Some?;
    assert IsObjectOf(env, FieldsOfType(env, t), {}, d.book.schemas[key].value);
  }

  /** A reported collision lists the types that claim the name and the entries that reach one of them, each
      as topic or topic@version, all in sorted order. */
  lemma CollisionListsTypesAndTopics(names: map<string, string>, schemas: Components, uses: seq<Entry>, n: string)
    ensures var c := CollisionOf(names, schemas, uses, n);
      && c.name == n && IsSortedListing(c.types, KeysNamed(names, n)) && Sorted(c.topics, CodePointLess)
      && forall l :: l in c.topics <==> exists e ::
           && e in uses && TouchedBy(e, schemas, KeysNamed(names, n))
           && l == (if e.version == "" then e.topic else e.topic + "@" + e.version)
  {
    hide TouchedBy;
    var labels := TouchingLabels(uses, schemas, KeysNamed(names, n));
    CodePointLessIsOrder();
    SortIsSorted(labels, CodePointLess);
    forall l ensures l in StableSort(labels, CodePointLess) <==> l in labels {
      assert l in multiset(StableSort(labels, CodePointLess)) <==> l in multiset(labels);
    }
    forall l {
      TouchingLabelsAre(uses, schemas, KeysNamed(names, n), l);
    }
  }

  lemma {:induction false} TouchingLabelsAre(uses: seq<Entry>, schemas: Components, targets: set<string>, l: string)
    ensures l in TouchingLabels(uses, schemas, targets) <==> exists e ::
      && e in uses && TouchedBy(e, schemas, targets)
      && l == (if e.version == "" then e.topic else e.topic + "@" + e.version)
  {
    hide TouchedBy;
    if uses != [] {
      TouchingLabelsAre(uses[1..], schemas, targets, l);
      assert forall e :: e in uses <==> e == uses[0] || e in uses[1..];
    }
  }
}
