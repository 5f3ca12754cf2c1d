/** Derive (contract/derive.go): draft every entry over provisional keys, judge the names two types
    share, then publish under the names. */
module Derivation {
  import opened JsonTrees
  import opened Options
  import opened Sorting
  import opened SortedNames
  import opened GoTypes
  import opened SchemaDeriver
  import opened Hash
  import opened RefReachability
  import opened DeriverLaws

  datatype Role = RequestRole | EventRole | SendRole

  /** A topic a service handles, publishes or sends, with its payload types. */
  datatype Declared = Declared(topic: string, version: string, request: TypeId, response: Option<TypeId>)

  datatype Outbound = Outbound(events: seq<Declared>, sends: seq<Declared>)

  datatype Entry = Entry(topic: string, version: string, request: Json, response: Option<Json>)

  datatype Document = Document(
    requests: seq<Entry>, events: seq<Entry>, sends: seq<Entry>,
    components: map<string, Json>, degraded: bool)

  datatype Collision = Collision(name: string, types: seq<string>, topics: seq<string>)

  datatype Outcome = Published(doc: Document) | Collided(collisions: seq<Collision>)

  ghost predicate TypesInRange(env: Types, ds: seq<Declared>) {
    forall d | d in ds :: d.request < |env| && (d.response.Some? ==> d.response.value < |env|)
  }

  /** noPayload. */
  predicate NoPayload(env: Types, t: Option<TypeId>)
    requires t.Some? ==> t.value < |env|
  {
    t.None? || (env[t.value].kind.Struct? && env[t.value].name == "" && env[t.value].kind.hollow)
  }

  /** The response an entry describes, if any. */
  function ResponseType(env: Types, role: Role, d: Declared): Option<TypeId>
    requires d.response.Some? ==> d.response.value < |env|
  {
    match role
    case RequestRole => if NoPayload(env, d.response) then None else d.response
    case EventRole => None
    case SendRole => d.response
  }

  function Label(e: Entry): string { if e.version == "" then e.topic else e.topic + "@" + e.version }

  function SchemasIn(e: Entry): seq<Json> {
    [e.request] + if e.response.Some? then [e.response.value] else []
  }

  // ---------------------------------------------------------------- drafting

  function DraftEntry(env: Types, role: Role, d: Declared, book: Book): (Entry, Book)
    requires Finite(env) && TypesInRange(env, [d])
  {
    assert d in [d];
    var (request, b1) := SchemaOf(env, d.request, {}, book);
    match ResponseType(env, role, d)
    case None => (Entry(d.topic, d.version, request, None), b1)
    case Some(t) =>
      var (response, b2) := SchemaOf(env, t, {}, b1);
      (Entry(d.topic, d.version, request, Some(response)), b2)
  }

  function DraftEntries(env: Types, role: Role, ds: seq<Declared>, book: Book, acc: seq<Entry>): (seq<Entry>, Book)
    requires Finite(env) && TypesInRange(env, ds)
  {
    if ds == [] then (acc, book)
    else if IsReserved(ds[0].topic) then DraftEntries(env, role, ds[1..], book, acc)
    else
      var (entry, book') := DraftEntry(env, role, ds[0], book);
      DraftEntries(env, role, ds[1..], book', acc + [entry])
  }

  datatype Drafts = Drafts(requests: seq<Entry>, events: seq<Entry>, sends: seq<Entry>, book: Book)

  function Draft(env: Types, requests: seq<Declared>, outbound: Outbound): Drafts
    requires Finite(env) && TypesInRange(env, requests)
    requires TypesInRange(env, outbound.events) && TypesInRange(env, outbound.sends)
  {
    var (rs, b1) := DraftEntries(env, RequestRole, requests, NEW_BOOK, []);
    var (es, b2) := DraftEntries(env, EventRole, outbound.events, b1, []);
    var (ss, b3) := DraftEntries(env, SendRole, outbound.sends, b2, []);
    Drafts(rs, es, ss, b3)
  }

  function Uses(d: Drafts): seq<Entry> { d.requests + d.events + d.sends }

  // ---------------------------------------------------------------- naming

  /** The finished schemas of a book. */
  function Finished(b: Book): Components {
    map k | k in b.schemas && b.schemas[k].Some? :: b.schemas[k].value
  }

  ghost function NamesOf(names: map<string, string>): set<string> { set k | k in names :: names[k] }

  ghost function KeysNamed(names: map<string, string>, n: string): set<string> {
    set k | k in names && names[k] == n
  }

  function NormalOf(schemas: Components, key: string): Json {
    Normalize(RefTo(key), schemas, {}).out
  }

  ghost predicate SameShape(schemas: Components, keys: set<string>) {
    forall a, b | a in keys && b in keys :: NormalOf(schemas, a) == NormalOf(schemas, b)
  }

  /** The names two keys of different shapes claim. */
  ghost function CollidingNames(names: map<string, string>, schemas: Components): set<string> {
    set n | n in NamesOf(names) && !SameShape(schemas, KeysNamed(names, n))
  }

  ghost predicate TouchedBy(e: Entry, schemas: Components, targets: set<string>) {
    exists i :: 0 <= i < |SchemasIn(e)| && Touches(SchemasIn(e)[i], schemas, targets)
  }

  /** The labels of the entries that reach a target, in entry order. */
  ghost function TouchingLabels(uses: seq<Entry>, schemas: Components, targets: set<string>): seq<string> {
    if uses == [] then []
    else (if TouchedBy(uses[0], schemas, targets) then [Label(uses[0])] else [])
         + TouchingLabels(uses[1..], schemas, targets)
  }

  ghost function CollisionOf(names: map<string, string>, schemas: Components, uses: seq<Entry>, n: string): Collision {
    Collision(n, SortedListing(KeysNamed(names, n)),
      StableSort(TouchingLabels(uses, schemas, KeysNamed(names, n)), CodePointLess))
  }

  ghost function CollisionsOf(names: map<string, string>, schemas: Components, uses: seq<Entry>,
      ns: seq<string>): seq<Collision>
  {
    seq(|ns|, i requires 0 <= i < |ns| => CollisionOf(names, schemas, uses, ns[i]))
  }

  // ---------------------------------------------------------------- publishing

  /** renameRefs: rewrites every $ref string in a schema, wherever it stands. */
  function RenameRefs(v: Json, rho: string -> string): Json {
    match v
    case Obj(m) =>
      Obj(map k | k in m ::
        if k == "$ref" && m[k].Str? then Str(REF_PREFIX + rho(RefKey(m[k].s))) else RenameRefs(m[k], rho))
    case Arr(items) => Arr(seq(|items|, i requires 0 <= i < |items| => RenameRefs(items[i], rho)))
    case _ => v
  }

  /** The name a provisional key is published under; "" for a key nobody registered. */
  function PublicName(names: map<string, string>): string -> string {
    key => if key in names then names[key] else ""
  }

  function PublishEntry(e: Entry, rho: string -> string): Entry {
    e.(request := RenameRefs(e.request, rho),
       response := if e.response.Some? then Some(RenameRefs(e.response.value, rho)) else None)
  }

  function PublishEntries(es: seq<Entry>, rho: string -> string): seq<Entry> {
    seq(|es|, i requires 0 <= i < |es| => PublishEntry(es[i], rho))
  }

  /** The first key, in sorted order, that claims a name. */
  ghost function FirstKey(names: map<string, string>, n: string): (k: string)
    requires n in NamesOf(names)
    ensures k in names && names[k] == n
    ensures forall j | j in names && names[j] == n && j != k :: CodePointLess(k, j)
  {
    assert exists k :: k in KeysNamed(names, n) by {
      var k :| k in names && names[k] == n;
      assert k in KeysNamed(names, n);
    }
    Least(KeysNamed(names, n))
  }

  /** Each name publishes the schema of the first key, in sorted order, that claims it. */
  ghost function PublishedComponents(names: map<string, string>, schemas: Components): map<string, Json>
    requires names.Keys <= schemas.Keys
  {
    map n | n in NamesOf(names) :: RenameRefs(schemas[FirstKey(names, n)], PublicName(names))
  }

  ghost function PublishedDocument(d: Drafts, degraded: bool): Document
    requires d.book.names.Keys <= Finished(d.book).Keys
  {
    var rho := PublicName(d.book.names);
    Document(PublishEntries(d.requests, rho), PublishEntries(d.events, rho), PublishEntries(d.sends, rho),
      PublishedComponents(d.book.names, Finished(d.book)), degraded)
  }

  // ---------------------------------------------------------------- the source's loops

  /** The deriver driven over one list of declarations. */
  method DraftList(deriver: Deriver, role: Role, ds: seq<Declared>) returns (entries: seq<Entry>)
    requires Finite(deriver.env) && TypesInRange(deriver.env, ds)
    modifies deriver
    ensures (entries, deriver.State()) == DraftEntries(deriver.env, role, ds, old(deriver.State()), [])
  {
    entries := [];
    var i := 0;
    assert ds[0..] == ds;
    while i < |ds|
      invariant 0 <= i <= |ds|
      invariant DraftEntries(deriver.env, role, ds[i..], deriver.State(), entries)
             == DraftEntries(deriver.env, role, ds, old(deriver.State()), [])
    {
      var d := ds[i];
      assert ds[i..][1..] == ds[i + 1..];
      i := i + 1;
      if IsReserved(d.topic) {
        continue;
      }
      assert d in [d];
      var request := deriver.Schema(d.request, {});
      var response: Option<Json> := None;
      var responseType := ResponseType(deriver.env, role, d);
      if responseType.Some? {
        var schema := deriver.Schema(responseType.value, {});
        response := Some(schema);
      }
      entries := entries + [Entry(d.topic, d.version, request, response)];
    }
    assert ds[i..] == [];
  }

  /** sameShape: every key against the first. */
  method CompareShapes(schemas: Components, keys: seq<string>) returns (same: bool)
    ensures same <==> SameShape(schemas, set k | k in keys)
  {
    var i := 0;
    while i < |keys|
      invariant 0 <= i <= |keys|
      invariant forall j | 0 <= j < i :: NormalOf(schemas, keys[j]) == NormalOf(schemas, keys[0])
    {
      if NormalOf(schemas, keys[i]) != NormalOf(schemas, keys[0]) {
        assert keys[i] in keys && keys[0] in keys;
        return false;
      }
      i := i + 1;
    }
    return true;
  }

  /** The keys each name is claimed by, collected from the names map in any order. */
  method GroupByName(names: map<string, string>) returns (byName: map<string, seq<string>>)
    ensures byName.Keys == NamesOf(names)
    ensures forall n | n in byName :: IsSortedListing(byName[n], KeysNamed(names, n))
  {
    var grouped: map<string, seq<string>> := map[];
    var todo := names.Keys;
    while todo != {}
      invariant todo <= names.Keys && GroupedBut(names, todo, grouped)
    {
      var key :| key in todo;
      var name := names[key];
      var before := if name in grouped then grouped[name] else [];
      GroupOneMore(names, todo, grouped, key);
      grouped := grouped[name := before + [key]];
      todo := todo - {key};
    }
    byName := map n | n in grouped :: StableSort(grouped[n], CodePointLess);
    forall n | n in byName ensures IsSortedListing(byName[n], KeysNamed(names, n)) {
      assert KeysNamed(names, n) - {} == KeysNamed(names, n);
      SortGivesListing(grouped[n], KeysNamed(names, n));
    }
  }

  /** The keys that are not left to do, grouped by name. */
  ghost predicate GroupedBut(names: map<string, string>, todo: set<string>, grouped: map<string, seq<string>>) {
    && (forall k | k in names && k !in todo :: names[k] in grouped)
    && (forall n | n in grouped :: n in NamesOf(names) && Lists(grouped[n], KeysNamed(names, n) - todo))
  }

  lemma GroupOneMore(names: map<string, string>, todo: set<string>, grouped: map<string, seq<string>>, key: string)
    requires todo <= names.Keys && GroupedBut(names, todo, grouped) && key in todo
    ensures var before := if names[key] in grouped then grouped[names[key]] else [];
      GroupedBut(names, todo - {key}, grouped[names[key] := before + [key]])
  {
    var name := names[key];
    var before := if name in grouped then grouped[name] else [];
    assert name !in grouped ==> KeysNamed(names, name) - todo == {};
    ListOneMore(before, KeysNamed(names, name) - todo, key);
    hide Lists;
    forall n | n in NamesOf(names)
      ensures KeysNamed(names, n) - (todo - {key}) ==
        if n == name then KeysNamed(names, n) - todo + {key} else KeysNamed(names, n) - todo
    {
    }
  }

  /** The colliding names of a list, in its order. */
  ghost function KeepColliding(names: map<string, string>, schemas: Components, ns: seq<string>): seq<string> {
    if ns == [] then []
    else (if SameShape(schemas, KeysNamed(names, ns[0])) then [] else [ns[0]]) + KeepColliding(names, schemas, ns[1..])
  }

  lemma {:induction false} KeepElements(names: map<string, string>, schemas: Components, ns: seq<string>, x: string)
    ensures x in KeepColliding(names, schemas, ns) <==> x in ns && !SameShape(schemas, KeysNamed(names, x))
  {
    if ns != [] {
      KeepElements(names, schemas, ns[1..], x);
      assert ns == [ns[0]] + ns[1..];
    }
  }

  lemma {:induction false} KeepOrdered(names: map<string, string>, schemas: Components, ns: seq<string>)
    requires Sorted(ns, CodePointLess)
    requires forall i, j | 0 <= i < j < |ns| :: ns[i] != ns[j]
    ensures var q := KeepColliding(names, schemas, ns);
      Sorted(q, CodePointLess) && forall i, j | 0 <= i < j < |q| :: q[i] != q[j]
  {
    if ns != [] {
      var rest := KeepColliding(names, schemas, ns[1..]);
      KeepOrdered(names, schemas, ns[1..]);
      forall j | 0 <= j < |rest| ensures rest[j] != ns[0] && !CodePointLess(rest[j], ns[0]) {
        KeepElements(names, schemas, ns[1..], rest[j]);
        var i :| 0 <= i < |ns[1..]| && ns[1..][i] == rest[j];
        assert ns[i + 1] == rest[j];
      }
    }
  }

  lemma {:induction false} OneMoreKept(names: map<string, string>, schemas: Components, ns: seq<string>, n: string)
    ensures KeepColliding(names, schemas, ns + [n])
      == KeepColliding(names, schemas, ns) + if SameShape(schemas, KeysNamed(names, n)) then [] else [n]
  {
    hide SameShape;
    if ns != [] {
      OneMoreKept(names, schemas, ns[1..], n);
      assert (ns + [n])[1..] == ns[1..] + [n];
    }
  }

  /** The names found colliding, one after another, are the sorted listing of the colliding names. */
  lemma KeptIsListing(names: map<string, string>, schemas: Components, ns: seq<string>)
    requires IsSortedListing(ns, NamesOf(names))
    ensures KeepColliding(names, schemas, ns) == SortedListing(CollidingNames(names, schemas))
  {
    KeepOrdered(names, schemas, ns);
    var q := KeepColliding(names, schemas, ns);
    forall x ensures x in q <==> x in CollidingNames(names, schemas) {
      KeepElements(names, schemas, ns, x);
    }
    SortedListingUnique(q, SortedListing(CollidingNames(names, schemas)), CollidingNames(names, schemas));
  }

  method Reaching(e: Entry, schemas: Components, keys: set<string>) returns (reached: bool)
    ensures reached == TouchedBy(e, schemas, keys)
  {
    reached := ReachesAny(SchemasIn(e), schemas, keys);
  }

  lemma {:induction false} OneMoreLabel(uses: seq<Entry>, e: Entry, schemas: Components, targets: set<string>)
    ensures TouchingLabels(uses + [e], schemas, targets)
      == TouchingLabels(uses, schemas, targets) + if TouchedBy(e, schemas, targets) then [Label(e)] else []
  {
    hide TouchedBy;
    if uses != [] {
      OneMoreLabel(uses[1..], e, schemas, targets);
      assert (uses + [e])[1..] == uses[1..] + [e];
    }
  }

  /** The topics a collision names: every entry that reaches one of the keys. */
  method TopicsOf(uses: seq<Entry>, schemas: Components, keys: set<string>) returns (topics: seq<string>)
    ensures topics == StableSort(TouchingLabels(uses, schemas, keys), CodePointLess)
  {
    hide TouchedBy;
    topics := [];
    var i := 0;
    while i < |uses|
      invariant 0 <= i <= |uses|
      invariant topics == TouchingLabels(uses[..i], schemas, keys)
    {
      assert uses[..i + 1] == uses[..i] + [uses[i]];
      OneMoreLabel(uses[..i], uses[i], schemas, keys);
      var reached := Reaching(uses[i], schemas, keys);
      if reached {
        topics := topics + [Label(uses[i])];
      }
      i := i + 1;
    }
    assert uses[..i] == uses;
    topics := StableSort(topics, CodePointLess);
  }

  /** A collision's type names: the qualified names of the types behind its keys. */
  method TypesOf(deriver: Deriver, keys: seq<string>) returns (names: seq<string>)
    requires forall k | k in keys ::
      k in deriver.types && deriver.types[k] < |deriver.env| && deriver.env[deriver.types[k]].qualified == k
    ensures names == keys
  {
    names := [];
    var i := 0;
    while i < |keys|
      invariant 0 <= i <= |keys| && names == keys[..i]
    {
      names := names + [deriver.env[deriver.types[keys[i]]].qualified];
      i := i + 1;
    }
  }

  ghost predicate NamesTypes(deriver: Deriver)
    reads deriver
  {
    forall k | k in deriver.names ::
      k in deriver.types && deriver.types[k] < |deriver.env| && deriver.env[deriver.types[k]].qualified == k
  }

  /** The judgement of one name. */
  method JudgeName(deriver: Deriver, schemas: Components, uses: seq<Entry>, name: string, keys: seq<string>)
    returns (same: bool, collision: Collision)
    requires NamesTypes(deriver) && IsSortedListing(keys, KeysNamed(deriver.names, name))
    ensures same <==> SameShape(schemas, KeysNamed(deriver.names, name))
    ensures !same ==> collision == CollisionOf(deriver.names, schemas, uses, name)
  {
    var claimed := set k | k in keys;
    assert claimed == KeysNamed(deriver.names, name);
    SortedListingUnique(keys, SortedListing(claimed), claimed);
    collision := Collision(name, keys, []);
    same := CompareShapes(schemas, keys);
    if |keys| > 1 && !same {
      var types := TypesOf(deriver, keys);
      var topics := TopicsOf(uses, schemas, claimed);
      collision := Collision(name, types, topics);
      return;
    }
    if |keys| <= 1 {
      SingletonSameShape(schemas, keys);
    }
    same := true;
  }

  lemma NoneJudged(names: map<string, string>, schemas: Components, uses: seq<Entry>)
    ensures CollisionsOf(names, schemas, uses, KeepColliding(names, schemas, [])) == []
  {
  }

  lemma OneMoreJudged(names: map<string, string>, schemas: Components, uses: seq<Entry>, ns: seq<string>, n: string)
    ensures CollisionsOf(names, schemas, uses, KeepColliding(names, schemas, ns + [n]))
      == CollisionsOf(names, schemas, uses, KeepColliding(names, schemas, ns))
         + if SameShape(schemas, KeysNamed(names, n)) then [] else [CollisionOf(names, schemas, uses, n)]
  {
    hide SameShape, CollisionOf;
    OneMoreKept(names, schemas, ns, n);
  }

  /** The judgement: a name whose keys have different shapes is a collision, otherwise its first key
      survives for all of them. */
  method Judge(deriver: Deriver, schemas: Components, uses: seq<Entry>)
    returns (survivor: map<string, string>, collisions: seq<Collision>)
    requires NamesTypes(deriver)
    ensures collisions
      == CollisionsOf(deriver.names, schemas, uses, SortedListing(CollidingNames(deriver.names, schemas)))
    ensures collisions == [] ==> IsSurvivor(survivor, deriver.names)
  {
    hide NormalOf, TouchedBy, SameShape, CollisionOf, KeepColliding, CollisionsOf, SurvivorSoFar, IsSurvivor, Sorted,
      KeysNamed;
    var names := deriver.names;
    var byName := GroupByName(names);
    var ns := NamesInOrder(byName);
    survivor, collisions := map[], [];
    NoneJudged(names, schemas, uses);
    NoneSurvives(names);
    var i := 0;
    assert ns[..0] == [];
    while i < |ns|
      invariant 0 <= i <= |ns|
      invariant collisions == CollisionsOf(names, schemas, uses, KeepColliding(names, schemas, ns[..i]))
      invariant SurvivorSoFar(survivor, names, ns[..i], collisions == [])
    {
      var name := ns[i];
      assert ns[..i + 1] == ns[..i] + [name];
      OneMoreJudged(names, schemas, uses, ns[..i], name);
      var same, collision := JudgeName(deriver, schemas, uses, name, byName[name]);
      SurvivesSkipped(survivor, names, ns[..i], collisions == [], name);
      if !same {
        collisions := collisions + [collision];
        i := i + 1;
        continue;
      }
      survivor := Survive(names, survivor, name, byName[name], ns[..i], collisions == []);
      i := i + 1;
    }
    assert ns[..i] == ns;
    KeptIsListing(names, schemas, ns);
    AllSurvive(survivor, names, ns, collisions == []);
  }

  lemma NoneSurvives(names: map<string, string>)
    ensures SurvivorSoFar(map[], names, [], true)
  {
  }

  /** A colliding name has no survivor, which is no matter once there is a collision. */
  lemma SurvivesSkipped(survivor: map<string, string>, names: map<string, string>, judged: seq<string>, all: bool,
      name: string)
    requires SurvivorSoFar(survivor, names, judged, all)
    ensures SurvivorSoFar(survivor, names, judged + [name], false)
  {
  }

  lemma AllSurvive(survivor: map<string, string>, names: map<string, string>, ns: seq<string>, all: bool)
    requires SurvivorSoFar(survivor, names, ns, all) && IsSortedListing(ns, NamesOf(names))
    ensures all ==> IsSurvivor(survivor, names)
  {
    hide FirstKey, Sorted;
    forall k | k in names ensures names[k] in ns {
      assert names[k] in NamesOf(names);
    }
  }

  /** Survivors of the names judged so far; all of them, unless there was a collision. */
  ghost predicate SurvivorSoFar(survivor: map<string, string>, names: map<string, string>, judged: seq<string>,
      all: bool)
  {
    && (forall k | k in survivor :: k in names && survivor[k] == FirstKey(names, names[k]))
    && (all ==> forall k | k in names && names[k] in judged :: k in survivor)
  }

  ghost predicate IsSurvivor(survivor: map<string, string>, names: map<string, string>) {
    survivor.Keys == names.Keys && forall k | k in survivor :: survivor[k] == FirstKey(names, names[k])
  }

  /** The survivor loop: every key of a name maps to the first. */
  method Survive(names: map<string, string>, survivor: map<string, string>, name: string, keys: seq<string>,
      ghost judged: seq<string>, ghost all: bool)
    returns (out: map<string, string>)
    requires name in NamesOf(names) && IsSortedListing(keys, KeysNamed(names, name))
    requires SurvivorSoFar(survivor, names, judged, all)
    ensures forall k :: k in out <==> k in survivor || k in KeysNamed(names, name)
    ensures forall k | k in out :: out[k] == if k in KeysNamed(names, name) then FirstKey(names, name) else survivor[k]
    ensures SurvivorSoFar(out, names, judged + [name], all)
  {
    hide FirstKey;
    SortedListingUnique(keys, SortedListing(KeysNamed(names, name)), KeysNamed(names, name));
    var first := FirstOf(names, name, keys);
    out := survivor;
    var j := 0;
    while j < |keys|
      invariant 0 <= j <= |keys|
      invariant forall k :: k in out <==> k in survivor || k in keys[..j]
      invariant forall k | k in out :: out[k] == if k in keys[..j] then first else survivor[k]
    {
      assert keys[..j + 1] == keys[..j] + [keys[j]];
      out := out[keys[j] := first];
      j := j + 1;
    }
    assert keys[..j] == keys;
  }

  method FirstOf(names: map<string, string>, name: string, keys: seq<string>) returns (first: string)
    requires name in NamesOf(names) && keys == SortedListing(KeysNamed(names, name))
    ensures first == FirstKey(names, name)
  {
    assert FirstKey(names, name) in keys;
    first := keys[0];
  }

  lemma SingletonSameShape(schemas: Components, keys: seq<string>)
    requires |keys| <= 1
    ensures SameShape(schemas, set k | k in keys)
  {
    forall a, b | a in keys && b in keys ensures a == b {}
  }

  /** The names in sorted order. */
  method NamesInOrder(byName: map<string, seq<string>>) returns (ns: seq<string>)
    ensures IsSortedListing(ns, byName.Keys)
  {
    ns := [];
    var todo := byName.Keys;
    while todo != {}
      invariant todo <= byName.Keys && Lists(ns, byName.Keys - todo)
    {
      var name :| name in todo;
      assert byName.Keys - (todo - {name}) == byName.Keys - todo + {name};
      ListOneMore(ns, byName.Keys - todo, name);
      ns := ns + [name];
      todo := todo - {name};
    }
    SortGivesListing(ns, byName.Keys);
    ns := StableSort(ns, CodePointLess);
  }

  /** Renaming looks at rho only through its values. */
  lemma {:induction false} RenameRefsByValue(v: Json, rho: string -> string, tau: string -> string)
    requires forall k :: rho(k) == tau(k)
    ensures RenameRefs(v, rho) == RenameRefs(v, tau)
  {
    match v
    case Obj(m) =>
      forall k | k in m ensures RenameRefs(m[k], rho) == RenameRefs(m[k], tau) {
        RenameRefsByValue(m[k], rho, tau);
      }
    case Arr(items) =>
      forall i | 0 <= i < |items| ensures RenameRefs(items[i], rho) == RenameRefs(items[i], tau) {
        RenameRefsByValue(items[i], rho, tau);
      }
    case _ =>
  }

  /** The rename closure: the name of a key's survivor, "" where a map lookup misses. */
  function SurvivorName(names: map<string, string>, survivor: map<string, string>): string -> string {
    key =>
      var target := if key in survivor then survivor[key] else "";
      if target in names then names[target] else ""
  }

  method PublishList(es: seq<Entry>, names: map<string, string>, survivor: map<string, string>)
    returns (out: seq<Entry>)
    requires "" !in names && IsSurvivor(survivor, names)
    ensures out == PublishEntries(es, PublicName(names))
  {
    var rho := SurvivorName(names, survivor);
    out := [];
    var i := 0;
    while i < |es|
      invariant 0 <= i <= |es| && |out| == i
      invariant forall j | 0 <= j < i :: out[j] == PublishEntry(es[j], PublicName(names))
    {
      RenameRefsByValue(es[i].request, rho, PublicName(names));
      if es[i].response.Some? {
        RenameRefsByValue(es[i].response.value, rho, PublicName(names));
      }
      out := out + [PublishEntry(es[i], rho)];
      i := i + 1;
    }
  }

  /** The components loop: every key that survives for its own name publishes its schema. */
  method PublishComponents(names: map<string, string>, schemas: Components, survivor: map<string, string>)
    returns (components: map<string, Json>)
    requires "" !in names && names.Keys <= schemas.Keys && IsSurvivor(survivor, names)
    ensures components == PublishedComponents(names, schemas)
  {
    hide RenameRefs, FirstKey, SurvivorName, PublishedSoFar, PublishedComponents;
    var rho := SurvivorName(names, survivor);
    components := map[];
    var todo := survivor.Keys;
    NonePublished(names, schemas, survivor);
    while todo != {}
      invariant todo <= survivor.Keys && PublishedSoFar(names, schemas, survivor.Keys - todo, components)
    {
      var key :| key in todo;
      assert survivor.Keys - (todo - {key}) == survivor.Keys - todo + {key};
      todo := todo - {key};
      if key == survivor[key] {
        SurvivorNames(names, survivor);
        RenameRefsByValue(schemas[key], rho, PublicName(names));
        PublishMore(names, schemas, survivor.Keys - todo - {key}, components, key);
        components := components[names[key] := RenameRefs(schemas[key], rho)];
      } else {
        PassMore(names, schemas, survivor.Keys - todo - {key}, components, key);
      }
      assert survivor.Keys - todo - {key} + {key} == survivor.Keys - todo;
    }
    assert survivor.Keys - todo == names.Keys;
    AllPublished(names, schemas, components);
  }

  /** The names whose first keys are done are published. */
  ghost predicate PublishedSoFar(names: map<string, string>, schemas: Components, done: set<string>,
      components: map<string, Json>)
    requires names.Keys <= schemas.Keys
  {
    && (forall n | n in components ::
          n in NamesOf(names) && components[n] == RenameRefs(schemas[FirstKey(names, n)], PublicName(names)))
    && (forall n | n in NamesOf(names) && FirstKey(names, n) in done :: n in components)
  }

  lemma NonePublished(names: map<string, string>, schemas: Components, survivor: map<string, string>)
    requires names.Keys <= schemas.Keys
    ensures PublishedSoFar(names, schemas, survivor.Keys - survivor.Keys, map[])
  {
  }

  lemma PublishMore(names: map<string, string>, schemas: Components, done: set<string>, components: map<string, Json>,
      key: string)
    requires names.Keys <= schemas.Keys && PublishedSoFar(names, schemas, done, components)
    requires key in names && names[key] in NamesOf(names) && key == FirstKey(names, names[key])
    ensures PublishedSoFar(names, schemas, done + {key},
        components[names[key] := RenameRefs(schemas[key], PublicName(names))])
  {
    hide RenameRefs, PublicName;
  }

  lemma PassMore(names: map<string, string>, schemas: Components, done: set<string>, components: map<string, Json>,
      key: string)
    requires names.Keys <= schemas.Keys && PublishedSoFar(names, schemas, done, components)
    requires key in names && names[key] in NamesOf(names) && key != FirstKey(names, names[key])
    ensures PublishedSoFar(names, schemas, done + {key}, components)
  {
    hide RenameRefs, PublicName;
  }

  lemma AllPublished(names: map<string, string>, schemas: Components, components: map<string, Json>)
    requires names.Keys <= schemas.Keys && PublishedSoFar(names, schemas, names.Keys, components)
    ensures components == PublishedComponents(names, schemas)
  {
    hide RenameRefs, PublicName;
  }

  lemma SurvivorNames(names: map<string, string>, survivor: map<string, string>)
    requires "" !in names && IsSurvivor(survivor, names)
    ensures forall k :: SurvivorName(names, survivor)(k) == PublicName(names)(k)
  {
  }

  ghost predicate EntryHeld(e: Entry, keys: set<string>) {
    Held(e.request, keys) && (e.response.Some? ==> Held(e.response.value, keys))
  }

  ghost predicate EntriesHeld(es: seq<Entry>, keys: set<string>) {
    forall e | e in es :: EntryHeld(e, keys)
  }

  lemma {:induction false} DraftEntriesKeep(env: Types, role: Role, ds: seq<Declared>, b: Book, acc: seq<Entry>)
    requires Finite(env) && TypesInRange(env, ds) && BookOk(env, b) && EntriesHeld(acc, b.schemas.Keys)
    ensures var (es, b') := DraftEntries(env, role, ds, b, acc);
      Keeps(env, b, b') && EntriesHeld(es, b'.schemas.Keys)
  {
    hide Held;
    if ds != [] {
      if IsReserved(ds[0].topic) {
        DraftEntriesKeep(env, role, ds[1..], b, acc);
      } else {
        assert ds[0] in [ds[0]];
        var (entry, b') := DraftEntry(env, role, ds[0], b);
        DraftEntryKeeps(env, role, ds[0], b);
        EntriesHeldMore(env, acc, b, b');
        DraftEntriesKeep(env, role, ds[1..], b', acc + [entry]);
        KeepsTrans(env, b, b', DraftEntries(env, role, ds, b, acc).1);
      }
    }
  }

  lemma EntriesHeldMore(env: Types, es: seq<Entry>, b: Book, b': Book)
    requires EntriesHeld(es, b.schemas.Keys) && Keeps(env, b, b')
    ensures EntriesHeld(es, b'.schemas.Keys)
  {
    forall e | e in es ensures EntryHeld(e, b'.schemas.Keys) {
      assert EntryHeld(e, b.schemas.Keys);
    }
  }

  lemma DraftEntryKeeps(env: Types, role: Role, d: Declared, b: Book)
    requires Finite(env) && TypesInRange(env, [d]) && BookOk(env, b)
    ensures var (e, b') := DraftEntry(env, role, d, b); Keeps(env, b, b') && EntryHeld(e, b'.schemas.Keys)
  {
    assert d in [d];
    SchemaKeeps(env, d.request, {}, b);
    var (request, b1) := SchemaOf(env, d.request, {}, b);
    var t := ResponseType(env, role, d);
    if t.Some? {
      SchemaKeeps(env, t.value, {}, b1);
      KeepsTrans(env, b, b1, SchemaOf(env, t.value, {}, b1).1);
    }
  }

  /** A finished draft: consistent maps, nothing left in progress, every reference held. */
  ghost predicate Complete(env: Types, d: Drafts) {
    && BookOk(env, d.book)
    && Finished(d.book).Keys == d.book.schemas.Keys == d.book.names.Keys
    && EntriesHeld(d.requests, d.book.schemas.Keys)
    && EntriesHeld(d.events, d.book.schemas.Keys)
    && EntriesHeld(d.sends, d.book.schemas.Keys)
  }

  lemma DraftIsComplete(env: Types, requests: seq<Declared>, outbound: Outbound)
    requires Finite(env) && TypesInRange(env, requests)
    requires TypesInRange(env, outbound.events) && TypesInRange(env, outbound.sends)
    ensures Complete(env, Draft(env, requests, outbound))
    ensures "" !in Draft(env, requests, outbound).book.names
  {
    hide Held;
    var (rs, b1) := DraftEntries(env, RequestRole, requests, NEW_BOOK, []);
    DraftEntriesKeep(env, RequestRole, requests, NEW_BOOK, []);
    var (es, b2) := DraftEntries(env, EventRole, outbound.events, b1, []);
    DraftEntriesKeep(env, EventRole, outbound.events, b1, []);
    var (ss, b3) := DraftEntries(env, SendRole, outbound.sends, b2, []);
    DraftEntriesKeep(env, SendRole, outbound.sends, b2, []);
    KeepsTrans(env, NEW_BOOK, b1, b2);
    KeepsTrans(env, NEW_BOOK, b2, b3);
    KeepsTrans(env, b1, b2, b3);
    EntriesHeldMore(env, rs, b1, b3);
    EntriesHeldMore(env, es, b2, b3);
  }

  lemma BookNamesTypes(deriver: Deriver)
    requires BookOk(deriver.env, deriver.State())
    ensures NamesTypes(deriver)
  {
  }

  /** No collision, no colliding name. */
  lemma NoCollisions(names: map<string, string>, schemas: Components, uses: seq<Entry>)
    ensures CollisionsOf(names, schemas, uses, SortedListing(CollidingNames(names, schemas))) == []
      <==> CollidingNames(names, schemas) == {}
  {
    hide CollidingNames, CollisionOf;
    var bad := CollidingNames(names, schemas);
    if SortedListing(bad) != [] { assert SortedListing(bad)[0] in bad; }
  }

  /** Derive, from its drafts to its result. */
  method Derive(env: Types, requests: seq<Declared>, outbound: Option<Outbound>) returns (r: Outcome)
    requires Finite(env) && TypesInRange(env, requests)
    requires outbound.Some? ==> TypesInRange(env, outbound.value.events) && TypesInRange(env, outbound.value.sends)
    ensures var d := Draft(env, requests, if outbound.Some? then outbound.value else Outbound([], []));
      var schemas := Finished(d.book);
      var bad := CollidingNames(d.book.names, schemas);
      if bad == {} then
        d.book.names.Keys <= schemas.Keys && r == Published(PublishedDocument(d, outbound.None?))
      else
        r == Collided(CollisionsOf(d.book.names, schemas, Uses(d), SortedListing(bad)))
  {
    hide Held, EntriesHeld, PublishEntries, PublishedComponents, CollisionsOf, CollidingNames, IsSurvivor, Finite;
    var deriver := new Deriver(env);
    var rs := DraftList(deriver, RequestRole, requests);
    var es: seq<Entry>, ss: seq<Entry> := [], [];
    if outbound.Some? {
      es := DraftList(deriver, EventRole, outbound.value.events);
      ss := DraftList(deriver, SendRole, outbound.value.sends);
    }
    ghost var d := Draft(env, requests, if outbound.Some? then outbound.value else Outbound([], []));
    assert d == Drafts(rs, es, ss, deriver.State());
    DraftIsComplete(env, requests, if outbound.Some? then outbound.value else Outbound([], []));
    BookNamesTypes(deriver);
    var schemas := Finished(deriver.State());
    var survivor, collisions := Judge(deriver, schemas, rs + es + ss);
    NoCollisions(deriver.names, schemas, rs + es + ss);
    if |collisions| > 0 {
      return Collided(collisions);
    }
    var components := PublishComponents(deriver.names, schemas, survivor);
    var requestsOut := PublishList(rs, deriver.names, survivor);
    var eventsOut := PublishList(es, deriver.names, survivor);
    var sendsOut := PublishList(ss, deriver.names, survivor);
    return Published(Document(requestsOut, eventsOut, sendsOut, components, outbound.None?));
  }
}
