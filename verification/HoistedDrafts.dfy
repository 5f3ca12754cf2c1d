/** Hoisting and the hash of a document: which entries are hashed alike whether named structs are components or
    written in place. */
module HoistedDrafts {
  import opened JsonTrees
  import opened Options
  import opened GoTypes
  import opened SchemaDeriver
  import opened DeriverLaws
  import opened DeriverReach
  import opened Derivation
  import opened SchemaShapes
  import opened Marshaling
  import opened Inlining
  import opened DerivedEntries
  import opened Hash

  /** Two entries agree on all that is hashed of them; f's schemas refer to no component. */
  ghost predicate HashAlike(e: Entry, schemas: Components, f: Entry) {
    && e.topic == f.topic && e.version == f.version && (e.response.Some? <==> f.response.Some?)
    && Normalize(e.request, schemas, {}).out == Normalize(f.request, map[], {}).out
    && (e.response.Some? ==>
          Normalize(e.response.value, schemas, {}).out == Normalize(f.response.value, map[], {}).out)
  }

  ghost predicate AllHashAlike(es: seq<Entry>, schemas: Components, fs: seq<Entry>) {
    |es| == |fs| && forall i | 0 <= i < |es| :: HashAlike(es[i], schemas, fs[i])
  }

  /** Some chain of types from t comes back, through a component, to a struct written in place. */
  ghost predicate Returns(env: Types, t: TypeId)
    requires InRange(env)
  {
    exists w :: w != [] && w[0] == t && ComesBack(env, w)
  }

  /** No such chain starts at a type the declaration publishes. */
  ghost predicate NeverReturns(env: Types, role: Role, d: Declared)
    requires InRange(env) && InTable(env, d)
  {
    !Returns(env, d.request) && (Responds(env, role, d) ==> !Returns(env, d.response.value))
  }

  ghost predicate NoneReturns(env: Types, role: Role, ds: seq<Declared>)
    requires InRange(env) && TypesInRange(env, ds)
  {
    forall i | 0 <= i < |ds| :: NeverReturns(env, role, ds[i])
  }

  lemma EntryHashesAlike(env: Types, role: Role, d: Declared, schemas: Components)
    requires Finite(env) && DistinctProperties(env) && DistinctKeys(env) && FinishedFor(env, schemas) && InTable(env, d)
    requires EntryHeld(DraftAlone(env, d, Responds(env, role, d)), schemas.Keys)
    ensures Finite(Inlined(env)) && Responds(Inlined(env), role, d) == Responds(env, role, d)
    ensures var responds := Responds(env, role, d);
      HashAlike(DraftAlone(env, d, responds), schemas, DraftAlone(Inlined(env), d, responds))
      <==> NeverReturns(env, role, d)
  {
    hide DistinctProperties, DistinctKeys, FinishedFor, Held, Normalize, SchemaAlone, ComesBack;
    HoistingIsNotHashed(env, d.request, schemas);
    if Responds(env, role, d) {
      HoistingIsNotHashed(env, d.response.value, schemas);
    }
  }

  lemma DraftsAre(env: Types, role: Role, ds: seq<Declared>, b: Book)
    requires Finite(env) && TypesInRange(env, ds)
    ensures DraftEntries(env, role, ds, b, []).0 == DraftsAlone(env, role, Unreserved(ds))
  {
    EntriesAlone(env, role, ds, b, []);
    hide DraftEntries, DraftsAlone, Finite;
    assert [] + DraftsAlone(env, role, Unreserved(ds)) == DraftsAlone(env, role, Unreserved(ds));
  }

  lemma ListHashesAlike(env: Types, role: Role, ds: seq<Declared>, b: Book, c: Book, schemas: Components)
    requires Finite(env) && DistinctProperties(env) && DistinctKeys(env) && FinishedFor(env, schemas)
    requires TypesInRange(env, ds) && EntriesHeld(DraftEntries(env, role, ds, b, []).0, schemas.Keys)
    ensures Finite(Inlined(env))
    ensures AllHashAlike(DraftEntries(env, role, ds, b, []).0, schemas, DraftEntries(Inlined(env), role, ds, c, []).0)
      <==> NoneReturns(env, role, Unreserved(ds))
  {
    InlinedTable(env);
    hide DistinctProperties, DistinctKeys, FinishedFor, Held, Normalize, SchemaAlone, DraftEntries, HashAlike,
      DraftAlone, NeverReturns, Responds, Finite, InRange, EntryHeld, Unreserved, Inlined;
    DraftsAre(env, role, ds, b);
    DraftsAre(Inlined(env), role, ds, c);
    var es, us := DraftEntries(env, role, ds, b, []).0, Unreserved(ds);
    FiniteInRange(env);
    forall i | 0 <= i < |us|
      ensures HashAlike(es[i], schemas, DraftEntries(Inlined(env), role, ds, c, []).0[i])
        <==> NeverReturns(env, role, us[i])
    {
      assert es[i] in es && EntryHeld(es[i], schemas.Keys);
      EntryHashesAlike(env, role, us[i], schemas);
    }
  }

  /** Two services whose types differ in component names only - one has some, the other none - draft entries that
      are hashed alike exactly when no type an entry publishes leads, through a component, back to a struct
      without a component. */
  lemma HoistingDraftsHashAlike(env: Types, requests: seq<Declared>, outbound: Outbound)
    requires Finite(env) && DistinctProperties(env) && DistinctKeys(env)
    requires TypesInRange(env, requests)
    requires TypesInRange(env, outbound.events) && TypesInRange(env, outbound.sends)
    ensures Finite(Inlined(env))
    ensures var d, e := Draft(env, requests, outbound), Draft(Inlined(env), requests, outbound);
      var schemas := Finished(d.book);
      && (AllHashAlike(d.requests, schemas, e.requests) <==> NoneReturns(env, RequestRole, Unreserved(requests)))
      && (AllHashAlike(d.events, schemas, e.events) <==> NoneReturns(env, EventRole, Unreserved(outbound.events)))
      && (AllHashAlike(d.sends, schemas, e.sends) <==> NoneReturns(env, SendRole, Unreserved(outbound.sends)))
  {
    InlinedTable(env);
    FiniteInRange(env);
    DraftFinishes(env, requests, outbound);
    hide DraftEntries, Finite, DistinctProperties, DistinctKeys, FinishedFor, AllHashAlike, EntriesHeld, BookOk,
      HoldsBodies, NoneReturns, InRange;
    var schemas := Finished(Draft(env, requests, outbound).book);
    var (b1, c1) := (DraftEntries(env, RequestRole, requests, NEW_BOOK, []).1,
      DraftEntries(Inlined(env), RequestRole, requests, NEW_BOOK, []).1);
    var (b2, c2) := (DraftEntries(env, EventRole, outbound.events, b1, []).1,
      DraftEntries(Inlined(env), EventRole, outbound.events, c1, []).1);
    ListHashesAlike(env, RequestRole, requests, NEW_BOOK, NEW_BOOK, schemas);
    ListHashesAlike(env, EventRole, outbound.events, b1, c1, schemas);
    ListHashesAlike(env, SendRole, outbound.sends, b2, c2, schemas);
  }

  // ---------------------------------------------------------------- hoisting one of two

  function NodeStruct(name: string, component: string, field: string, typ: TypeId): GoType {
    GoType(Struct([JsonField(field, typ, false, true)], false), name, name, component, false, false, false, false)
  }

  function PointerType(elem: TypeId): GoType { GoType(Pointer(elem), "", "", "", false, false, false, false) }

  /** Two structs that point at each other, the first with a component name and the second without. */
  function HalfHoisted(a: string, b: string, component: string, f: string, g: string): Types {
    [NodeStruct(a, component, f, 2), NodeStruct(b, "", g, 3), PointerType(1), PointerType(0)]
  }

  lemma HalfIsFinite(a: string, b: string, component: string, f: string, g: string)
    requires a != "" && b != ""
    ensures var env := HalfHoisted(a, b, component, f, g);
      Finite(env) && DistinctProperties(env) && DistinctKeys(env)
  {
    var env := HalfHoisted(a, b, component, f, g);
    assert InRange(env);
    HalfHasOneKey(a, b, component, f, g);
    hide DistinctKeys;
    forall t: TypeId | t < |env| && !IsLeaf(env, t) ensures NeedsEarlier(env, t) {
      assert t in [0, 1, 2, 3];
    }
  }

  lemma HalfHasOneKey(a: string, b: string, component: string, f: string, g: string)
    ensures DistinctKeys(HalfHoisted(a, b, component, f, g))
  {
  }

  /** The second struct leads through the first one's component back to itself, so hoisting the first one only is
      hashed: a request of the second has another normal form than with both in place. */
  lemma HoistingSomeIsHashed(a: string, b: string, component: string, f: string, g: string, topic: string)
    requires a != "" && b != "" && component != "" && !("benzene:" <= topic)
    ensures var env, requests := HalfHoisted(a, b, component, f, g), [Declared(topic, "", 1, None)];
      && Finite(env) && Finite(Inlined(env))
      && var d, e := Draft(env, requests, Outbound([], [])), Draft(Inlined(env), requests, Outbound([], []));
      !AllHashAlike(d.requests, Finished(d.book), e.requests)
  {
    var env, requests := HalfHoisted(a, b, component, f, g), [Declared(topic, "", 1, None)];
    HalfIsFinite(a, b, component, f, g);
    HalfReturns(a, b, component, f, g);
    hide Finite, DistinctProperties, DistinctKeys, Draft, AllHashAlike, Returns, HalfHoisted;
    assert Unreserved(requests) == [Declared(topic, "", 1, None)] by { assert requests[1..] == []; }
    HoistingDraftsHashAlike(env, requests, Outbound([], []));
    FiniteInRange(env);
    assert !NeverReturns(env, RequestRole, Unreserved(requests)[0]);
  }

  lemma HalfReturns(a: string, b: string, component: string, f: string, g: string)
    requires a != "" && b != "" && component != ""
    ensures var env := HalfHoisted(a, b, component, f, g); |env| == 4 && InRange(env) && Returns(env, 1)
  {
    var env, w := HalfHoisted(a, b, component, f, g), [1, 3, 0, 2, 1];
    HalfSteps(a, b, component, f, g);
    hide Steps, InRange, HalfHoisted;
    assert w[0] == w[4] == 1 && Hoisted(env[w[2]]);
    assert ComesBack(env, w);
  }

  lemma HalfSteps(a: string, b: string, component: string, f: string, g: string)
    requires a != "" && b != "" && component != ""
    ensures var env := HalfHoisted(a, b, component, f, g);
      && |env| == 4 && InRange(env)
      && Steps(env, 0) == {2} && Steps(env, 1) == {3} && Steps(env, 2) == {1} && Steps(env, 3) == {0}
      && Hoisted(env[0]) && InPlace(env[1]) && !Hoistable(env[2]) && !Hoistable(env[3])
  {
    var env := HalfHoisted(a, b, component, f, g);
    assert InRange(env);
    assert JsonField(f, 2, false, true) in env[0].kind.fields && JsonField(g, 3, false, true) in env[1].kind.fields;
  }
}
