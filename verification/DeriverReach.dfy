/** The deriver's components are exactly the named structs its entries reach, so a collision is judged
    between reached types and between no others. */
module DeriverReach {
  import opened JsonTrees
  import opened SortedNames
  import opened GoTypes
  import opened SchemaDeriver
  import opened DeriverLaws
  import opened Hash
  import opened Derivation

  /** A type that gets a component when it is reached. */
  ghost predicate HasComponent(env: Types, t: TypeId) {
    t < |env| && Hoisted(env[t]) && Plain(env[t])
  }

  /** No two types share a provisional key. */
  ghost predicate DistinctKeys(env: Types) {
    forall t, u | 0 <= t < |env| && 0 <= u < |env| && Hoisted(env[t]) && Hoisted(env[u]) ::
      env[t].qualified == env[u].qualified ==> t == u
  }

  ghost predicate IsTypeChain(env: Types, p: seq<TypeId>)
    requires Finite(env)
  {
    p != [] && forall i | 0 <= i < |p| - 1 :: p[i + 1] in Steps(env, p[i])
  }

  /** t is part of the marshaled form of a root. */
  ghost predicate Reached(env: Types, roots: set<TypeId>, t: TypeId)
    requires Finite(env)
  {
    exists p :: IsTypeChain(env, p) && p[0] in roots && p[|p| - 1] == t
  }

  ghost predicate StepClosed(env: Types, types: set<TypeId>)
    requires Finite(env)
  {
    forall t | t in types :: Steps(env, t) <= types
  }

  /** covered is what the walk has seen: its components are exactly the book's. */
  ghost predicate Covers(env: Types, covered: set<TypeId>, b: Book) {
    forall t: TypeId | HasComponent(env, t) :: t in covered <==> env[t].qualified in b.schemas
  }

  /** after is before plus types of within, each with all its steps. */
  ghost predicate Grows(env: Types, before: set<TypeId>, after: set<TypeId>, within: set<TypeId>)
    requires Finite(env)
  {
    && before <= after <= before + within
    && forall t | t in after - before :: Steps(env, t) <= after
  }

  lemma GrowsTrans(env: Types, a: set<TypeId>, b: set<TypeId>, c: set<TypeId>, within: set<TypeId>)
    requires Finite(env) && Grows(env, a, b, within) && Grows(env, b, c, within)
    ensures Grows(env, a, c, within)
  {
    forall t | t in c - a ensures Steps(env, t) <= c {
      if t in b { assert Steps(env, t) <= b; }
    }
  }

  /** The walk under one type: everything new is reached, and everything new has its steps covered.
      Types still being built or inlined are in covered already. */
  lemma {:induction false} SchemaCovers(env: Types, t: TypeId, visiting: set<TypeId>, b: Book,
      covered: set<TypeId>, within: set<TypeId>)
    returns (after: set<TypeId>)
    requires Finite(env) && DistinctKeys(env) && t < |env| && BookOk(env, b)
    requires Covers(env, covered, b) && visiting <= covered && StepClosed(env, within) && t in within
    ensures t in after && Grows(env, covered, after, within) && Covers(env, after, SchemaOf(env, t, visiting, b).1)
    decreases Keys(env) - b.schemas.Keys, NamedStructs(env) - visiting, t, 1, 0
  {
    hide BookOk;
    if IsLeaf(env, t) {
      LeafKeeps(env, t, visiting, b);
      after := covered + {t};
    } else {
      assert Steps(env, t) <= within;
      if env[t].kind.Struct? {
        after := StructCovers(env, t, visiting, b, covered, within);
      } else {
        ElementStep(env, t);
        hide Steps, IsLeaf;
        after := SchemaCovers(env, ElementOf(env, t), visiting, b, covered, within);
        after := after + {t};
      }
    }
  }

  /** A pointer or a collection has one step, to its element. */
  lemma ElementStep(env: Types, t: TypeId)
    requires Finite(env) && t < |env| && !IsLeaf(env, t) && !env[t].kind.Struct?
    ensures ElementOf(env, t) < t && Steps(env, t) == {ElementOf(env, t)} && !HasComponent(env, t)
  {
    assert NeedsEarlier(env, t);
  }

  lemma {:induction false} StructCovers(env: Types, t: TypeId, visiting: set<TypeId>, b: Book,
      covered: set<TypeId>, within: set<TypeId>)
    returns (after: set<TypeId>)
    requires Finite(env) && DistinctKeys(env) && t < |env| && BookOk(env, b) && env[t].kind.Struct? && !IsLeaf(env, t)
    requires Covers(env, covered, b) && visiting <= covered && StepClosed(env, within) && t in within
    ensures t in after && Grows(env, covered, after, within) && Covers(env, after, SchemaOf(env, t, visiting, b).1)
    decreases Keys(env) - b.schemas.Keys, NamedStructs(env) - visiting, t, 0, |env[t].kind.fields| + 1
  {
    hide BookOk;
    var ty, fields := env[t], env[t].kind.fields;
    if Hoisted(ty) && ty.qualified !in b.schemas {
      after := FirstSightCovers(env, t, visiting, b, covered, within);
    } else if Hoisted(ty) || (Hoistable(ty) && t in visiting) {
      after := covered;
    } else {
      var visiting' := if Hoistable(ty) then visiting + {t} else visiting;
      var bound := if Hoistable(ty) then |env| else t;
      assert Steps(env, t) <= within;
      hide Covers, DistinctKeys;
      after := PropertiesCover(env, fields, bound, visiting', b, map[], covered + {t}, within);
    }
  }

  lemma {:induction false} FirstSightCovers(env: Types, t: TypeId, visiting: set<TypeId>, b: Book,
      covered: set<TypeId>, within: set<TypeId>)
    returns (after: set<TypeId>)
    requires Finite(env) && DistinctKeys(env) && t < |env| && BookOk(env, b) && env[t].kind.Struct? && !IsLeaf(env, t)
    requires Covers(env, covered, b) && visiting <= covered && StepClosed(env, within) && t in within
    requires Hoisted(env[t]) && env[t].qualified !in b.schemas
    ensures t in after && Grows(env, covered, after, within) && Covers(env, after, SchemaOf(env, t, visiting, b).1)
    decreases Keys(env) - b.schemas.Keys, NamedStructs(env) - visiting, t, 0, |env[t].kind.fields|
  {
    var fields, begun := env[t].kind.fields, Begin(env, t, b);
    hide *;
    BeginsNewKey(env, t, b);
    FieldsWithin(env, t, within);
    BeginKeeps(env, t, b);
    BeginCovers(env, t, b, covered);
    after := PropertiesCover(env, fields, |env|, {}, begun, map[], covered + {t}, within);
    FirstSight(env, t, visiting, b);
    var (properties, c) := PropertiesOf(env, fields, |env|, {}, begun, map[]);
    StructGrows(env, t, covered, after, within);
    FiledCovers(env, t, b, c, ObjectSchema(properties, RequiredNames(fields)), after);
  }

  lemma BeginsNewKey(env: Types, t: TypeId, b: Book)
    requires t < |env| && Hoisted(env[t]) && env[t].qualified !in b.schemas
    ensures Keys(env) - Begin(env, t, b).schemas.Keys < Keys(env) - b.schemas.Keys
  {
    assert env[t].qualified in Keys(env) - b.schemas.Keys;
  }

  lemma FieldsWithin(env: Types, t: TypeId, within: set<TypeId>)
    requires Finite(env) && t < |env| && env[t].kind.Struct? && !IsLeaf(env, t) && Hoisted(env[t])
    requires StepClosed(env, within) && t in within
    ensures HasComponent(env, t) && Plain(env[t])
    ensures forall f | f in env[t].kind.fields :: Fits(env, f, |env|) && (!f.quoted ==> f.typ in within)
  {
    assert Steps(env, t) <= within;
  }

  lemma StructGrows(env: Types, t: TypeId, covered: set<TypeId>, after: set<TypeId>, within: set<TypeId>)
    requires Finite(env) && t < |env| && env[t].kind.Struct? && t in within
    requires Grows(env, covered + {t}, after, within)
    requires forall f | f in env[t].kind.fields && !f.quoted :: f.typ in after
    ensures t in after && Grows(env, covered, after, within)
  {
  }

  lemma BeginCovers(env: Types, t: TypeId, b: Book, covered: set<TypeId>)
    requires DistinctKeys(env) && Covers(env, covered, b) && HasComponent(env, t)
    ensures Covers(env, covered + {t}, Begin(env, t, b))
  {
  }

  lemma FiledCovers(env: Types, t: TypeId, b: Book, c: Book, built: Json, after: set<TypeId>)
    requires t < |env| && Covers(env, after, c) && t in after && HasComponent(env, t)
    ensures Covers(env, after, Filed(env, t, c, built))
  {
    assert Filed(env, t, c, built).schemas.Keys == c.schemas.Keys;
  }

  lemma {:induction false} PropertiesCover(
      env: Types, fields: seq<JsonField>, bound: nat, visiting: set<TypeId>, b: Book, acc: map<string, Json>,
      covered: set<TypeId>, within: set<TypeId>)
    returns (after: set<TypeId>)
    requires Finite(env) && DistinctKeys(env) && bound <= |env| && (forall f | f in fields :: Fits(env, f, bound))
    requires BookOk(env, b) && Covers(env, covered, b) && visiting <= covered && StepClosed(env, within)
    requires forall f | f in fields && !f.quoted :: f.typ in within
    ensures Grows(env, covered, after, within)
    ensures Covers(env, after, PropertiesOf(env, fields, bound, visiting, b, acc).1)
    ensures forall f | f in fields && !f.quoted :: f.typ in after
    decreases Keys(env) - b.schemas.Keys, NamedStructs(env) - visiting, bound, 0, |fields|
  {
    hide BookOk;
    if fields == [] {
      after := covered;
    } else {
      var f := fields[0];
      var (s, b1) := PropertyOf(env, f, bound, visiting, b);
      PropertyKeeps(env, f, bound, visiting, b);
      var middle := covered;
      if !f.quoted {
        middle := SchemaCovers(env, f.typ, visiting, b, covered, within);
      }
      after := PropertiesCover(env, fields[1..], bound, visiting, b1, acc[f.name := s], middle, within);
      GrowsTrans(env, covered, middle, after, within);
    }
  }

  // ---------------------------------------------------------------- the entries

  /** The types the entries of one list derive. */
  ghost function Roots(env: Types, role: Role, ds: seq<Declared>): set<TypeId>
    requires TypesInRange(env, ds)
  {
    if ds == [] then {}
    else
      assert ds[0] in ds;
      (if IsReserved(ds[0].topic) then {} else {ds[0].request} + ResponseTypes(env, role, ds[0]))
      + Roots(env, role, ds[1..])
  }

  ghost function ResponseTypes(env: Types, role: Role, d: Declared): set<TypeId>
    requires d.response.Some? ==> d.response.value < |env|
  {
    var t := ResponseType(env, role, d);
    if t.Some? then {t.value} else {}
  }

  lemma {:induction false} EntriesCover(env: Types, role: Role, ds: seq<Declared>, b: Book, acc: seq<Entry>,
      covered: set<TypeId>, within: set<TypeId>)
    returns (after: set<TypeId>)
    requires Finite(env) && DistinctKeys(env) && TypesInRange(env, ds) && BookOk(env, b)
    requires Covers(env, covered, b) && StepClosed(env, within) && Roots(env, role, ds) <= within
    ensures Grows(env, covered, after, within) && Roots(env, role, ds) <= after
    ensures Covers(env, after, DraftEntries(env, role, ds, b, acc).1)
  {
    hide BookOk, StepClosed;
    if ds == [] {
      after := covered;
    } else if IsReserved(ds[0].topic) {
      after := EntriesCover(env, role, ds[1..], b, acc, covered, within);
    } else {
      var d := ds[0];
      assert d in [d];
      var (entry, b') := DraftEntry(env, role, d, b);
      DraftEntryKeeps(env, role, d, b);
      var middle := EntryCovers(env, role, d, b, covered, within);
      after := EntriesCover(env, role, ds[1..], b', acc + [entry], middle, within);
      GrowsTrans(env, covered, middle, after, within);
    }
  }

  lemma EntryCovers(env: Types, role: Role, d: Declared, b: Book, covered: set<TypeId>, within: set<TypeId>)
    returns (after: set<TypeId>)
    requires Finite(env) && DistinctKeys(env) && TypesInRange(env, [d]) && BookOk(env, b)
    requires Covers(env, covered, b) && StepClosed(env, within)
    requires d in [d] ==> {d.request} + ResponseTypes(env, role, d) <= within
    ensures Grows(env, covered, after, within) && Covers(env, after, DraftEntry(env, role, d, b).1)
    ensures d.request in after && (d in [d] ==> ResponseTypes(env, role, d) <= after)
  {
    hide BookOk, StepClosed;
    assert d in [d];
    after := SchemaCovers(env, d.request, {}, b, covered, within);
    var t := ResponseType(env, role, d);
    if t.Some? {
      SchemaKeeps(env, d.request, {}, b);
      var middle := after;
      assert t.value in ResponseTypes(env, role, d);
      after := SchemaCovers(env, t.value, {}, SchemaOf(env, d.request, {}, b).1, middle, within);
      GrowsTrans(env, covered, middle, after, within);
    }
  }

  ghost function AllRoots(env: Types, requests: seq<Declared>, outbound: Outbound): set<TypeId>
    requires TypesInRange(env, requests)
    requires TypesInRange(env, outbound.events) && TypesInRange(env, outbound.sends)
  {
    Roots(env, RequestRole, requests) + Roots(env, EventRole, outbound.events) + Roots(env, SendRole, outbound.sends)
  }

  lemma {:induction false} ChainStays(env: Types, types: set<TypeId>, p: seq<TypeId>)
    requires Finite(env) && StepClosed(env, types) && IsTypeChain(env, p) && p[0] in types
    ensures p[|p| - 1] in types
  {
    if |p| > 1 {
      var q := p[..|p| - 1];
      assert IsTypeChain(env, q);
      ChainStays(env, types, q);
      assert q[|q| - 1] == p[|p| - 2];
    }
  }

  ghost function ReachedTypes(env: Types, roots: set<TypeId>): set<TypeId>
    requires Finite(env)
  {
    set t: TypeId | t < |env| && Reached(env, roots, t)
  }

  lemma ReachedIsClosed(env: Types, roots: set<TypeId>)
    requires Finite(env)
    ensures StepClosed(env, ReachedTypes(env, roots))
    ensures forall t | t in roots && t < |env| :: t in ReachedTypes(env, roots)
  {
    forall t, u | t in ReachedTypes(env, roots) && u in Steps(env, t) ensures u in ReachedTypes(env, roots) {
      var p :| IsTypeChain(env, p) && p[0] in roots && p[|p| - 1] == t;
      var q := p + [u];
      assert IsTypeChain(env, q) && q[0] in roots && q[|q| - 1] == u;
      assert Reached(env, roots, u);
    }
    forall t | t in roots ensures Reached(env, roots, t) {
      assert IsTypeChain(env, [t]) && [t][0] in roots && [t][|[t]| - 1] == t;
    }
  }

  /** A named struct has a component exactly when an entry reaches it. */
  lemma ComponentsAreReached(env: Types, requests: seq<Declared>, outbound: Outbound, t: TypeId)
    requires Finite(env) && DistinctKeys(env) && TypesInRange(env, requests)
    requires TypesInRange(env, outbound.events) && TypesInRange(env, outbound.sends)
    requires HasComponent(env, t)
    ensures env[t].qualified in Draft(env, requests, outbound).book.schemas
      <==> Reached(env, AllRoots(env, requests, outbound), t)
  {
    hide BookOk;
    var roots := AllRoots(env, requests, outbound);
    var within := ReachedTypes(env, roots);
    ReachedIsClosed(env, roots);
    RootsInRange(env, RequestRole, requests);
    RootsInRange(env, EventRole, outbound.events);
    RootsInRange(env, SendRole, outbound.sends);
    var (rs, b1) := DraftEntries(env, RequestRole, requests, NEW_BOOK, []);
    var (es, b2) := DraftEntries(env, EventRole, outbound.events, b1, []);
    var (ss, b3) := DraftEntries(env, SendRole, outbound.sends, b2, []);
    NewBookOk(env);
    DraftEntriesKeep(env, RequestRole, requests, NEW_BOOK, []);
    DraftEntriesKeep(env, EventRole, outbound.events, b1, []);
    var c1 := EntriesCover(env, RequestRole, requests, NEW_BOOK, [], {}, within);
    var c2 := EntriesCover(env, EventRole, outbound.events, b1, [], c1, within);
    var c3 := EntriesCover(env, SendRole, outbound.sends, b2, [], c2, within);
    GrowsTrans(env, {}, c1, c2, within);
    GrowsTrans(env, {}, c2, c3, within);
    assert StepClosed(env, c3);
    if Reached(env, roots, t) {
      var p :| IsTypeChain(env, p) && p[0] in roots && p[|p| - 1] == t;
      ChainStays(env, c3, p);
    }
  }

  lemma NewBookOk(env: Types)
    ensures BookOk(env, NEW_BOOK)
  {
  }

  lemma {:induction false} RootsInRange(env: Types, role: Role, ds: seq<Declared>)
    requires TypesInRange(env, ds)
    ensures forall t | t in Roots(env, role, ds) :: t < |env|
  {
    if ds != [] {
      assert ds[0] in ds;
      RootsInRange(env, role, ds[1..]);
    }
  }

  /** Two reached types claim the name n with different normal forms. */
  ghost predicate Contested(env: Types, roots: set<TypeId>, schemas: Components, n: string, t: TypeId, u: TypeId)
    requires Finite(env)
  {
    && HasComponent(env, t) && Reached(env, roots, t) && env[t].component == n
    && HasComponent(env, u) && Reached(env, roots, u) && env[u].component == n
    && NormalOf(schemas, env[t].qualified) != NormalOf(schemas, env[u].qualified)
  }

  /** Derive reports a name exactly when two reached types claim it with different normal forms. */
  lemma CollisionsAreExact(env: Types, requests: seq<Declared>, outbound: Outbound, n: string)
    requires Finite(env) && DistinctKeys(env) && TypesInRange(env, requests)
    requires TypesInRange(env, outbound.events) && TypesInRange(env, outbound.sends)
    ensures var d := Draft(env, requests, outbound);
      n in CollidingNames(d.book.names, Finished(d.book)) <==>
        exists t: TypeId, u: TypeId :: Contested(env, AllRoots(env, requests, outbound), Finished(d.book), n, t, u)
  {
    hide NormalOf, Draft, Reached, Held;
    DraftIsComplete(env, requests, outbound);
    var d := Draft(env, requests, outbound);
    var roots, names, schemas := AllRoots(env, requests, outbound), d.book.names, Finished(d.book);
    if n in CollidingNames(names, schemas) {
      var a, b :| a in KeysNamed(names, n) && b in KeysNamed(names, n) && NormalOf(schemas, a) != NormalOf(schemas, b);
      var t, u := d.book.types[a], d.book.types[b];
      ComponentsAreReached(env, requests, outbound, t);
      ComponentsAreReached(env, requests, outbound, u);
      assert Contested(env, roots, schemas, n, t, u);
    }
    forall t: TypeId, u: TypeId | Contested(env, roots, schemas, n, t, u)
      ensures n in CollidingNames(names, schemas)
    {
      ComponentsAreReached(env, requests, outbound, t);
      ComponentsAreReached(env, requests, outbound, u);
      ContestedCollides(env, d.book, n, t, u);
    }
  }

  lemma ContestedCollides(env: Types, b: Book, n: string, t: TypeId, u: TypeId)
    requires DistinctKeys(env) && BookOk(env, b)
    requires HasComponent(env, t) && env[t].qualified in b.schemas && env[t].component == n
    requires HasComponent(env, u) && env[u].qualified in b.schemas && env[u].component == n
    requires NormalOf(Finished(b), env[t].qualified) != NormalOf(Finished(b), env[u].qualified)
    ensures n in CollidingNames(b.names, Finished(b))
  {
    hide NormalOf, Held;
    var x, y := env[t].qualified, env[u].qualified;
    assert b.types[x] == t && b.types[y] == u;
    assert x in KeysNamed(b.names, n) && y in KeysNamed(b.names, n);
  }
}
