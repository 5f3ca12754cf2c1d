/** Merging the components of one name: when it keeps every normal form. */
module Merging {
  import opened SchemaForms
  import opened JsonTrees
  import opened Options
  import opened Hash
  import opened HashNaming
  import opened HashHoisting
  import opened DeriverLaws
  import opened Derivation
  import opened SharedNames

  /** The components merged under their names: the first key's body, references by name. */
  ghost function MergedComponents(names: map<string, string>, schemas: Components): Components
    requires WholeBook(names, schemas)
  {
    map n | n in NamesOf(names) :: Rename(schemas[FirstKey(names, n)], PublicName(names))
  }

  /** v as it is published, at a path of names. */
  ghost function Publishes(names: map<string, string>, schemas: Components, v: Json, path: set<string>): Normal
    requires WholeBook(names, schemas)
  {
    Normalize(Rename(v, PublicName(names)), MergedComponents(names, schemas), path)
  }

  lemma MergedAt(names: map<string, string>, schemas: Components, k: string) returns (first: string)
    requires WholeBook(names, schemas) && k in names
    ensures first == FirstKey(names, names[k]) && first in names && first in schemas && names[first] == names[k]
    ensures names[k] in NamesOf(names)
    ensures names[k] in MergedComponents(names, schemas)
    ensures MergedComponents(names, schemas)[names[k]] == Rename(schemas[first], PublicName(names))
  {
    assert names[k] in NamesOf(names);
    first := FirstKey(names, names[k]);
  }

  /** A published reference: cut when its name is on the path, else the body of the name's first key. */
  lemma PublishesRef(names: map<string, string>, schemas: Components, v: Json, k: string, path: set<string>)
    returns (first: string)
    requires WholeBook(names, schemas)
    requires IsRef(v) && RefTarget(v.members["$ref"]) == Some(k) && k in names
    ensures first == FirstKey(names, names[k]) && first in names && first in schemas && names[first] == names[k]
    ensures names[k] in NamesOf(names)
    ensures Publishes(names, schemas, v, path) ==
      if names[k] in path then Normal(EMPTY, true)
      else Normal(Publishes(names, schemas, schemas[first], path + {names[k]}).out, false)
  {
    first := MergedAt(names, schemas, k);
    var rho := PublicName(names);
    RefTargetOfName(rho(k));
    NormalizeRef(Rename(v, rho), names[k], MergedComponents(names, schemas), path);
  }

  lemma RenamedKeeps(v: Json, rho: string -> string)
    requires v.Obj? && !IsRef(v)
    ensures var w := Rename(v, rho);
      && w.Obj? && !IsRef(w) && (forall k :: Retains(w, k) <==> Retains(v, k))
      && (forall k | k in v.members :: k in w.members && w.members[k] == RenameKeyword(k, v.members[k], rho))
  {
    var w := Rename(v, rho);
    forall k ensures Retains(w, k) <==> Retains(v, k) {
      if k in v.members {
        RenameKeywordIsAlike(k, v.members[k], rho);
      }
    }
  }

  /** Every schema under w's keyword is published, at a path of names, as its counterpart in v has it. */
  ghost predicate PartsMatch(names: map<string, string>, schemas: Components, key: string, v: Json, w: Json,
      path: set<string>, published: set<string>)
    requires WholeBook(names, schemas)
  {
    && HoldsSchemas(key, v) && HoldsSchemas(key, w)
    && if key == "properties" then
        v.members.Keys == w.members.Keys && forall p | p in v.members ::
          Publishes(names, schemas, w.members[p], published) == Normalize(v.members[p], schemas, path)
      else if key in {"items", "additionalProperties", "not"} then
        Publishes(names, schemas, w, published) == Normalize(v, schemas, path)
      else
        |v.items| == |w.items| && forall i | 0 <= i < |v.items| ::
          Publishes(names, schemas, w.items[i], published) == Normalize(v.items[i], schemas, path)
  }

  lemma KeywordMatches(names: map<string, string>, schemas: Components, key: string, v: Json, w: Json,
      path: set<string>, published: set<string>)
    requires WholeBook(names, schemas) && PartsMatch(names, schemas, key, v, w, path, published)
    ensures Keyword(key, RenameKeyword(key, w, PublicName(names)), MergedComponents(names, schemas), published)
         == Keyword(key, v, schemas, path)
  {
    hide Normalize, Rename, MergedComponents, WholeBook;
    var r := RenameKeyword(key, w, PublicName(names));
    if key == "properties" {
      assert r.members.Keys == v.members.Keys;
    }
  }

  lemma PlainKeyword(key: string, v: Json, rho: string -> string, a: Components, b: Components,
      pa: set<string>, pb: set<string>)
    requires !HoldsSchemas(key, v)
    ensures RenameKeyword(key, v, rho) == v && Keyword(key, v, a, pa) == Keyword(key, v, b, pb)
  {
    hide Normalize, Rename;
  }

  /** An object that is no reference, all of whose schemas match, matches. */
  lemma ObjectMatches(names: map<string, string>, schemas: Components, v: Json, w: Json,
      path: set<string>, published: set<string>)
    requires WholeBook(names, schemas) && v.Obj? && w.Obj? && !IsRef(v) && !IsRef(w)
    requires forall k :: Retains(v, k) <==> Retains(w, k)
    requires forall k | Retains(v, k) && Retains(w, k) ::
      (!HoldsSchemas(k, v.members[k]) && !HoldsSchemas(k, w.members[k])
        && Keyword(k, v.members[k], schemas, {}) == Keyword(k, w.members[k], schemas, {}))
      || PartsMatch(names, schemas, k, v.members[k], w.members[k], path, published)
    ensures Publishes(names, schemas, w, published) == Normalize(v, schemas, path)
  {
    hide Normalize, Keyword, WholeBook, MergedComponents, HoldsSchemas, Rename, RenameKeyword;
    var rho, merged := PublicName(names), MergedComponents(names, schemas);
    var r := Rename(w, rho);
    RenamedKeeps(w, rho);
    forall k | Retains(v, k)
      ensures Keyword(k, v.members[k], schemas, path) == Keyword(k, r.members[k], merged, published)
    {
      if HoldsSchemas(k, v.members[k]) {
        KeywordMatches(names, schemas, k, v.members[k], w.members[k], path, published);
      } else {
        PlainKeyword(k, v.members[k], rho, schemas, schemas, path, {});
        PlainKeyword(k, w.members[k], rho, merged, schemas, published, {});
      }
    }
    SoleCutMatches(names, schemas, v, w, path, published);
    NormalizeAlike(v, r, schemas, merged, path, published);
  }

  lemma SoleCutMatches(names: map<string, string>, schemas: Components, v: Json, w: Json,
      path: set<string>, published: set<string>)
    requires WholeBook(names, schemas) && v.Obj? && w.Obj? && !IsRef(v) && !IsRef(w)
    requires forall k :: Retains(v, k) <==> Retains(w, k)
    requires forall k | Retains(v, k) && Retains(w, k) ::
      (!HoldsSchemas(k, v.members[k]) && !HoldsSchemas(k, w.members[k]))
      || PartsMatch(names, schemas, k, v.members[k], w.members[k], path, published)
    ensures SoleCut(v, schemas, path)
      <==> SoleCut(Rename(w, PublicName(names)), MergedComponents(names, schemas), published)
  {
    hide Normalize, WholeBook, MergedComponents;
    KeywordsAreKept();
    RenamedKeeps(w, PublicName(names));
    if "allOf" in v.members || "allOf" in w.members {
      assert Retains(v, "allOf") && Retains(w, "allOf");
    }
  }

  // ---------------------------------------------------------------- schemas that reach no cycle

  /** No name on the path has a settled key whose form is within a reference of w. */
  ghost predicate Outranks(names: map<string, string>, schemas: Components, path: set<string>, w: Json) {
    forall x, r | x in names && names[x] in path && SettledKey(schemas, x) && r in Refs(w) ::
      FormOf(schemas, RefTo(r)) < FormOf(schemas, RefTo(x))
  }

  /** A schema that reaches no cycle is published with the form it has. */
  lemma {:induction false} SettledPublishes(names: map<string, string>, schemas: Components, w: Json, path: set<string>)
    requires WholeBook(names, schemas) && AllCorrespond(names, schemas) && NoCollision(names, schemas)
    requires Refs(w) <= schemas.Keys && Settled(schemas, w) && Outranks(names, schemas, path, w)
    ensures Publishes(names, schemas, w, path) == Normalize(w, schemas, {})
    decreases NamesOf(names) - path, w, 1
  {
    if IsRef(w) {
      var target := RefTarget(w.members["$ref"]);
      if target.Some? {
        SettledRefPublishes(names, schemas, w, target.value, path);
      }
    } else if w.Obj? {
      hide Normalize, Outranks, WholeBook, MergedComponents, AllCorrespond, NoCollision, Settled;
      forall k | Retains(w, k) && HoldsSchemas(k, w.members[k])
        ensures PartsMatch(names, schemas, k, w.members[k], w.members[k], {}, path)
      {
        SettledKeywordPublishes(names, schemas, w, k, path);
      }
      ObjectMatches(names, schemas, w, w, {}, path);
    }
  }

  lemma {:induction false} SettledRefPublishes(
      names: map<string, string>, schemas: Components, w: Json, x: string, path: set<string>)
    requires WholeBook(names, schemas) && AllCorrespond(names, schemas) && NoCollision(names, schemas)
    requires IsRef(w) && RefTarget(w.members["$ref"]) == Some(x) && x in names
    requires Settled(schemas, w) && Outranks(names, schemas, path, w)
    ensures Publishes(names, schemas, w, path) == Normalize(w, schemas, {})
    decreases NamesOf(names) - path, w, 0
  {
    hide Normalize, IsBody, Publishes, AllCorrespond, MergedComponents;
    FormOfRef(schemas, w, x);
    NeverCutAtFirst(schemas, w);
    var f := PublishesRef(names, schemas, w, x, path);
    if names[x] !in path {
      SettledFirst(names, schemas, x, f);
      forall y, r | y in names && names[y] in path + {names[x]} && SettledKey(schemas, y) && r in Refs(schemas[f])
        ensures FormOf(schemas, RefTo(r)) < FormOf(schemas, RefTo(y))
      {
        RefIsSmaller(schemas, schemas[f], r);
      }
      SettledPublishes(names, schemas, schemas[f], path + {names[x]});
    }
  }

  /** The first key of a settled key's name is settled too, and its body has the form of a reference to x. */
  lemma SettledFirst(names: map<string, string>, schemas: Components, x: string, f: string)
    requires WholeBook(names, schemas) && AllCorrespond(names, schemas) && NoCollision(names, schemas)
    requires x in names && f in names && names[f] == names[x] && SettledKey(schemas, x)
    ensures !IsRef(schemas[f]) && Refs(schemas[f]) <= schemas.Keys && Settled(schemas, schemas[f])
    ensures FormOf(schemas, schemas[f]) == FormOf(schemas, RefTo(x))
    ensures forall y | y in names && names[y] == names[x] :: FormOf(schemas, RefTo(y)) == FormOf(schemas, RefTo(x))
  {
    hide FormOf, IsBody, AllCorrespond, SettledKey;
    RefTargetOfName(f);
    RefTargetOfName(x);
    SettledNames(names, schemas, RefTo(f), RefTo(x), f, x);
    SettledBody(schemas, f);
    FormOfSettled(names, schemas, f);
    BodyIsNoRef(names, schemas, f);
  }

  lemma {:induction false} SettledKeywordPublishes(
      names: map<string, string>, schemas: Components, w: Json, key: string, path: set<string>)
    requires WholeBook(names, schemas) && AllCorrespond(names, schemas) && NoCollision(names, schemas)
    requires Refs(w) <= schemas.Keys && Settled(schemas, w) && Outranks(names, schemas, path, w)
    requires w.Obj? && !IsRef(w) && key in w.members && HoldsSchemas(key, w.members[key])
    ensures PartsMatch(names, schemas, key, w.members[key], w.members[key], {}, path)
    decreases NamesOf(names) - path, w, 0
  {
    hide Normalize, Publishes, WholeBook, AllCorrespond, NoCollision, SettledKey;
    var v := w.members[key];
    forall part | IsPart(key, v, part)
      ensures Publishes(names, schemas, part, path) == Normalize(part, schemas, {})
    {
      PartDecreases(w, key, part);
      PartRefs(key, v, part);
      assert Refs(part) <= Refs(w);
      SettledPublishes(names, schemas, part, path);
    }
    MatchParts(names, schemas, key, v, path);
  }

  lemma MatchParts(names: map<string, string>, schemas: Components, key: string, v: Json, path: set<string>)
    requires WholeBook(names, schemas) && HoldsSchemas(key, v)
    requires forall part | IsPart(key, v, part) :: Publishes(names, schemas, part, path) == Normalize(part, schemas, {})
    ensures PartsMatch(names, schemas, key, v, v, {}, path)
  {
    hide Normalize, Publishes, WholeBook;
    if key == "properties" {
      forall p | p in v.members
        ensures Publishes(names, schemas, v.members[p], path) == Normalize(v.members[p], schemas, {})
      {
        assert IsPart(key, v, v.members[p]);
      }
    } else if key in {"items", "additionalProperties", "not"} {
      assert IsPart(key, v, v);
    } else {
      forall i | 0 <= i < |v.items|
        ensures Publishes(names, schemas, v.items[i], path) == Normalize(v.items[i], schemas, {})
      {
        assert IsPart(key, v, v.items[i]);
      }
    }
  }

  // ---------------------------------------------------------------- separate names keep normal forms

  /** The names of a path of keys. */
  ghost function NamesAt(names: map<string, string>, path: set<string>): set<string> {
    set j | j in path && j in names :: names[j]
  }

  /** v is read below the keys of the path. */
  ghost predicate LiesBelow(schemas: Components, path: set<string>, v: Json) {
    forall j, r | j in path && r in Refs(v) :: Reaches(schemas, j, r)
  }

  /** The form of v is inside that of every settled key of the path; it may be all of it when w is no reference. */
  ghost predicate Ranked(schemas: Components, path: set<string>, v: Json, w: Json) {
    forall j | j in path && SettledKey(schemas, j) ::
      FormOf(schemas, v) < FormOf(schemas, RefTo(j)) || (FormOf(schemas, v) == FormOf(schemas, RefTo(j)) && !IsRef(w))
  }

  /** Where no component reaches another of its name, a schema and what corresponds to it are read alike. */
  lemma {:induction false} Agrees(
      names: map<string, string>, schemas: Components, v: Json, w: Json, path: set<string>)
    requires WholeBook(names, schemas) && AllCorrespond(names, schemas) && NoCollision(names, schemas)
    requires Separate(names, schemas) && path <= names.Keys
    requires Refs(v) <= schemas.Keys && Refs(w) <= schemas.Keys && Corresponds(names, schemas, v, w)
    requires LiesBelow(schemas, path, v) && Ranked(schemas, path, v, w)
    ensures Publishes(names, schemas, w, NamesAt(names, path)) == Normalize(v, schemas, path)
    decreases names.Keys - path, v, 2
  {
    hide Normalize, Publishes, MergedComponents, WholeBook, AllCorrespond, NoCollision, Separate, Settled, LiesBelow;
    if Settled(schemas, v) && Settled(schemas, w) && FormOf(schemas, v) == FormOf(schemas, w) {
      SettledAgrees(names, schemas, v, w, path);
    } else if RefersAlike(names, v, w) {
      var a, b := RefTarget(v.members["$ref"]).value, RefTarget(w.members["$ref"]).value;
      RefAgrees(names, schemas, v, w, a, b, path);
    } else {
      forall k | Retains(v, k) && Retains(w, k) && HoldsSchemas(k, v.members[k])
        ensures PartsMatch(names, schemas, k, v.members[k], w.members[k], path, NamesAt(names, path))
      {
        KeywordAgrees(names, schemas, v, w, k, path);
      }
      ObjectMatches(names, schemas, v, w, path, NamesAt(names, path));
    }
  }

  lemma SettledAgrees(names: map<string, string>, schemas: Components, v: Json, w: Json, path: set<string>)
    requires WholeBook(names, schemas) && AllCorrespond(names, schemas) && NoCollision(names, schemas)
    requires path <= names.Keys && Refs(v) <= schemas.Keys && Refs(w) <= schemas.Keys
    requires Settled(schemas, v) && Settled(schemas, w) && FormOf(schemas, v) == FormOf(schemas, w)
    requires LiesBelow(schemas, path, v) && Ranked(schemas, path, v, w)
    ensures Publishes(names, schemas, w, NamesAt(names, path)) == Normalize(v, schemas, path)
  {
    hide Normalize, Publishes, MergedComponents, IsBody, AllCorrespond;
    forall x | Below(schemas, v, x) ensures x !in path {
      var r :| r in Refs(v) && Leads(schemas, r, x);
      if x in path {
        LeadsTrans(schemas, x, r, x);
        assert false;
      }
    }
    PathIsIrrelevant(names, schemas, v, path);
    forall x, r | x in names && names[x] in NamesAt(names, path) && SettledKey(schemas, x) && r in Refs(w)
      ensures FormOf(schemas, RefTo(r)) < FormOf(schemas, RefTo(x))
    {
      var j :| j in path && names[j] == names[x];
      SettledKeys(names, schemas, j, x);
      RefIsSmaller(schemas, w, r);
    }
    SettledPublishes(names, schemas, w, NamesAt(names, path));
    NeverCutAtFirst(schemas, w);
  }

  /** Keys of one name are settled together. */
  lemma SettledKeys(names: map<string, string>, schemas: Components, a: string, b: string)
    requires WholeBook(names, schemas) && AllCorrespond(names, schemas) && NoCollision(names, schemas)
    requires a in names && b in names && names[a] == names[b] && SettledKey(schemas, b)
    ensures SettledKey(schemas, a)
  {
    hide IsBody, AllCorrespond, SettledKey, NoCollision;
    RefTargetOfName(a);
    RefTargetOfName(b);
    SettledNames(names, schemas, RefTo(a), RefTo(b), a, b);
  }

  lemma {:induction false} RefAgrees(
      names: map<string, string>, schemas: Components, v: Json, w: Json, a: string, b: string, path: set<string>)
    requires WholeBook(names, schemas) && AllCorrespond(names, schemas) && NoCollision(names, schemas)
    requires Separate(names, schemas) && path <= names.Keys
    requires IsRef(v) && RefTarget(v.members["$ref"]) == Some(a) && a in names
    requires IsRef(w) && RefTarget(w.members["$ref"]) == Some(b) && b in names && names[a] == names[b]
    requires LiesBelow(schemas, path, v) && Ranked(schemas, path, v, w)
    ensures Publishes(names, schemas, w, NamesAt(names, path)) == Normalize(v, schemas, path)
    decreases names.Keys - path, v, 1
  {
    hide Normalize, Publishes, MergedComponents, FormOf, WholeBook, NoCollision, LiesBelow, Ranked, Refs, Corresponds;
    var at := NamesAt(names, path);
    var f := PublishesRef(names, schemas, w, b, at);
    BookKeys(names, schemas);
    NormalizeRef(v, a, schemas, path);
    if names[b] in at {
      OnPath(names, schemas, v, a, path);
    } else {
      assert a !in path;
      assert NamesAt(names, path + {a}) == at + {names[b]};
      FormOfRef(schemas, v, a);
      BodyLiesBelow(schemas, path, v, a);
      BodyIsRanked(names, schemas, path, v, w, a, f);
      BodyIsNoRef(names, schemas, a);
      BodyIsNoRef(names, schemas, f);
      assert Corresponds(names, schemas, schemas[a], schemas[f]);
      Agrees(names, schemas, schemas[a], schemas[f], path + {a});
    }
  }

  lemma BookKeys(names: map<string, string>, schemas: Components)
    requires WholeBook(names, schemas)
    ensures names.Keys == schemas.Keys
  {
    hide IsBody, Refs;
  }

  /** Where components are separate, a reference whose name is on the path is itself on it. */
  lemma OnPath(names: map<string, string>, schemas: Components, v: Json, a: string, path: set<string>)
    requires Separate(names, schemas) && path <= names.Keys && a in names && names[a] in NamesAt(names, path)
    requires IsRef(v) && RefTarget(v.members["$ref"]) == Some(a) && LiesBelow(schemas, path, v)
    ensures a in path
  {
    hide Reaches;
    var j :| j in path && names[j] == names[a];
    assert a in Refs(v) && Reaches(schemas, j, a);
  }

  lemma BodyLiesBelow(schemas: Components, path: set<string>, v: Json, a: string)
    requires a in schemas && a in Refs(v) && LiesBelow(schemas, path, v)
    ensures LiesBelow(schemas, path + {a}, schemas[a])
  {
    hide Refs, Reaches;
    forall j, r | j in path + {a} && r in Refs(schemas[a]) ensures Reaches(schemas, j, r) {
      ReachesStep(schemas, a, r);
      if j in path {
        ReachesTrans(schemas, j, a, r);
      }
    }
  }

  lemma BodyIsRanked(names: map<string, string>, schemas: Components, path: set<string>, v: Json, w: Json,
      a: string, f: string)
    requires WholeBook(names, schemas) && a in names && f in names
    requires IsRef(v) && RefTarget(v.members["$ref"]) == Some(a) && IsRef(w)
    requires LiesBelow(schemas, path, v) && Ranked(schemas, path, v, w)
    ensures Ranked(schemas, path + {a}, schemas[a], schemas[f])
  {
    hide FormOf, IsBody, Refs, SettledKey;
    BodyIsNoRef(names, schemas, f);
    FormOfRef(schemas, v, a);
    forall j | j in path + {a} && SettledKey(schemas, j)
      ensures FormOf(schemas, schemas[a]) < FormOf(schemas, RefTo(j))
           || (FormOf(schemas, schemas[a]) == FormOf(schemas, RefTo(j)) && !IsRef(schemas[f]))
    {
      if j in path {
        SettledReached(schemas, j, a);
      }
      FormOfSettled(names, schemas, a);
    }
  }

  lemma {:induction false} KeywordAgrees(
      names: map<string, string>, schemas: Components, v: Json, w: Json, key: string, path: set<string>)
    requires WholeBook(names, schemas) && AllCorrespond(names, schemas) && NoCollision(names, schemas)
    requires Separate(names, schemas) && path <= names.Keys
    requires Refs(v) <= schemas.Keys && Refs(w) <= schemas.Keys
    requires LiesBelow(schemas, path, v) && Ranked(schemas, path, v, w)
    requires v.Obj? && w.Obj? && !IsRef(v) && !IsRef(w) && Retains(v, key) && Retains(w, key)
    requires HoldsSchemas(key, v.members[key])
    requires KeywordCorresponds(names, schemas, key, v.members[key], w.members[key])
    ensures PartsMatch(names, schemas, key, v.members[key], w.members[key], path, NamesAt(names, path))
    decreases names.Keys - path, v, 1
  {
    hide Normalize, Publishes, WholeBook, MergedComponents, AllCorrespond, NoCollision, Separate, Corresponds,
      LiesBelow, Ranked;
    var x, y := v.members[key], w.members[key];
    forall part, other | IsPart(key, x, part) && IsPart(key, y, other) && Corresponds(names, schemas, part, other)
      ensures Publishes(names, schemas, other, NamesAt(names, path)) == Normalize(part, schemas, path)
    {
      PartDecreases(v, key, part);
      PartRefs(key, x, part);
      PartRefs(key, y, other);
      PartLiesBelow(schemas, path, v, w, key, part, other);
      Agrees(names, schemas, part, other, path);
    }
    MatchCorresponding(names, schemas, key, x, y, path);
  }

  lemma PartLiesBelow(schemas: Components, path: set<string>, v: Json, w: Json, key: string, part: Json, other: Json)
    requires v.Obj? && !IsRef(v) && Retains(v, key) && IsPart(key, v.members[key], part)
    requires LiesBelow(schemas, path, v) && Ranked(schemas, path, v, w)
    ensures Refs(part) <= Refs(v) && LiesBelow(schemas, path, part) && Ranked(schemas, path, part, other)
  {
    hide FormOf, Reaches, SettledKey;
    PartRefs(key, v.members[key], part);
    PartIsSmaller(schemas, v, key, part);
  }

  lemma MatchCorresponding(names: map<string, string>, schemas: Components, key: string, v: Json, w: Json,
      path: set<string>)
    requires WholeBook(names, schemas) && HoldsSchemas(key, v) && KeywordCorresponds(names, schemas, key, v, w)
    requires forall x, y | IsPart(key, v, x) && IsPart(key, w, y) && Corresponds(names, schemas, x, y) ::
      Publishes(names, schemas, y, NamesAt(names, path)) == Normalize(x, schemas, path)
    ensures PartsMatch(names, schemas, key, v, w, path, NamesAt(names, path))
  {
    hide Normalize, Publishes, WholeBook, Corresponds, NamesAt;
    PartsPair(key, v, w);
  }

  /** What stands at one place under a keyword is a part. */
  lemma PartsPair(key: string, v: Json, w: Json)
    requires HoldsSchemas(key, v) && HoldsSchemas(key, w)
    ensures key == "properties" ==> forall p | p in v.members && p in w.members ::
      IsPart(key, v, v.members[p]) && IsPart(key, w, w.members[p])
    ensures key in {"items", "additionalProperties", "not"} ==> IsPart(key, v, v) && IsPart(key, w, w)
    ensures key != "properties" && key !in {"items", "additionalProperties", "not"} ==>
      v.Arr? && w.Arr? && forall i | 0 <= i < |v.items| && i < |w.items| ::
        IsPart(key, v, v.items[i]) && IsPart(key, w, w.items[i])
  {
  }

  // ---------------------------------------------------------------- names that are not separate change one

  /** A chain from a component to another one of its name. */
  ghost predicate LeadsAstray(names: map<string, string>, schemas: Components, p: seq<string>) {
    && IsChain(schemas, p) && (forall i | 0 <= i < |p| :: p[i] in names)
    && p[0] != p[|p| - 1] && names[p[0]] == names[p[|p| - 1]]
  }

  /** No two of its components share a name, but the ends. */
  ghost predicate IsTight(names: map<string, string>, p: seq<string>)
    requires forall i | 0 <= i < |p| :: p[i] in names
  {
    forall i, j | 0 <= i < j < |p| && (0 < i || j < |p| - 1) :: names[p[i]] != names[p[j]]
  }

  lemma {:induction false} Tighten(names: map<string, string>, schemas: Components, p: seq<string>)
    returns (q: seq<string>)
    requires LeadsAstray(names, schemas, p)
    ensures LeadsAstray(names, schemas, q) && IsTight(names, q)
    decreases |p|
  {
    hide Refs;
    if IsTight(names, p) {
      q := p;
    } else {
      var i, j :| 0 <= i < j < |p| && (0 < i || j < |p| - 1) && names[p[i]] == names[p[j]];
      var r := if p[i] != p[j] then p[i..j + 1] else p[..i] + p[j..];
      assert r[0] == (if p[i] != p[j] then p[i] else p[0]);
      assert r[|r| - 1] == (if p[i] != p[j] then p[j] else p[|p| - 1]);
      forall k | 0 <= k < |r| - 1 ensures r[k] in schemas && r[k + 1] in Refs(schemas[r[k]]) {
        if p[i] != p[j] {
          assert r[k] == p[i + k] && r[k + 1] == p[i + k + 1];
        } else if k < i {
          assert r[k] == p[k] && r[k + 1] == p[k + 1];
        } else {
          assert r[k] == p[j + k - i] && r[k + 1] == p[j + k - i + 1];
        }
      }
      q := Tighten(names, schemas, r);
    }
  }

  /** Nothing on such a chain is settled. */
  lemma AstrayIsUnsettled(names: map<string, string>, schemas: Components, p: seq<string>, i: nat)
    requires WholeBook(names, schemas) && AllCorrespond(names, schemas) && NoCollision(names, schemas)
    requires LeadsAstray(names, schemas, p) && i < |p|
    ensures !SettledKey(schemas, p[i])
  {
    hide FormOf, WholeBook, AllCorrespond, NoCollision, SettledKey, Refs;
    var last := |p| - 1;
    EndReached(schemas, p, i);
    EndReached(schemas, p, 0);
    if SettledKey(schemas, p[i]) {
      if i < last {
        SettledReached(schemas, p[i], p[last]);
      }
      SettledKeys(names, schemas, p[0], p[last]);
      ReachedIsSmaller(names, schemas, p[0], p[last]);
      SameForm(names, schemas, p[0], p[last]);
      assert false;
    }
  }

  lemma SameForm(names: map<string, string>, schemas: Components, j: string, k: string)
    requires NoCollision(names, schemas) && j in names && k in names && names[j] == names[k]
    ensures FormOf(schemas, RefTo(j)) == FormOf(schemas, RefTo(k))
  {
  }

  lemma EndReached(schemas: Components, p: seq<string>, i: nat)
    requires IsChain(schemas, p) && i < |p|
    ensures i < |p| - 1 ==> Reaches(schemas, p[i], p[|p| - 1])
  {
    hide Refs;
    if i < |p| - 1 {
      var q := p[i..];
      assert IsChain(schemas, q) && q[0] == p[i] && q[|q| - 1] == p[|p| - 1];
    }
  }

  /** The first components of a chain. */
  ghost function PathTo(p: seq<string>, i: int): set<string>
    requires i < |p|
  {
    set j | 0 <= j <= i :: p[j]
  }

  lemma BodyHasAForm(names: map<string, string>, schemas: Components, k: string, path: set<string>)
    requires WholeBook(names, schemas) && k in schemas
    ensures Normalize(schemas[k], schemas, path).out != EMPTY
  {
    KeywordsAreKept();
    var m := schemas[k].members;
    assert IsKept("type", m["type"]);
    assert "type" in Normalize(schemas[k], schemas, path).out.members;
  }

  lemma CorrespondsUnsettled(names: map<string, string>, schemas: Components, v: Json, w: Json)
    requires Corresponds(names, schemas, v, w) && !Settled(schemas, v)
    ensures v.Obj? && (IsRef(v) ==> RefersAlike(names, v, w))
    ensures !IsRef(v) ==> w.Obj? && !IsRef(w) && forall k | Retains(v, k) ::
      Retains(w, k) && KeywordCorresponds(names, schemas, k, v.members[k], w.members[k])
  {
    hide KeywordCorresponds, FormOf, SettledKey;
  }

  /** Along such a chain, what is published differs: where the chain ends it is cut. */
  lemma {:induction false} ChainDiffers(
      names: map<string, string>, schemas: Components, p: seq<string>, i: nat, v: Json, w: Json)
    requires WholeBook(names, schemas) && AllCorrespond(names, schemas) && NoCollision(names, schemas)
    requires LeadsAstray(names, schemas, p) && IsTight(names, p) && i < |p| - 1
    requires p[i + 1] in Refs(v) && Corresponds(names, schemas, v, w)
    ensures Publishes(names, schemas, w, NamesAt(names, PathTo(p, i))).out != Normalize(v, schemas, PathTo(p, i)).out
    decreases |p| - i, v, 2
  {
    hide Normalize, MergedComponents, WholeBook, AllCorrespond, NoCollision, LeadsAstray, IsTight, Refs,
      Corresponds, KeywordCorresponds, SettledKey, Keyword, Rename, RenameKeyword;
    AstrayIsUnsettled(names, schemas, p, i + 1);
    CorrespondsUnsettled(names, schemas, v, w);
    if IsRef(v) {
      RefDiffers(names, schemas, p, i, v, w);
    } else {
      var k := KeyOfRef(v, p[i + 1]);
      KeywordDiffers(names, schemas, p, i, k, v.members[k], w.members[k]);
      RenamedKeeps(w, PublicName(names));
      ObjectDiffers(v, Rename(w, PublicName(names)), k, schemas, MergedComponents(names, schemas),
        PathTo(p, i), NamesAt(names, PathTo(p, i)));
    }
  }

  lemma {:induction false} RefDiffers(
      names: map<string, string>, schemas: Components, p: seq<string>, i: nat, v: Json, w: Json)
    requires WholeBook(names, schemas) && AllCorrespond(names, schemas) && NoCollision(names, schemas)
    requires LeadsAstray(names, schemas, p) && IsTight(names, p) && i < |p| - 1
    requires IsRef(v) && p[i + 1] in Refs(v) && RefersAlike(names, v, w)
    ensures Publishes(names, schemas, w, NamesAt(names, PathTo(p, i))).out != Normalize(v, schemas, PathTo(p, i)).out
    decreases |p| - i, v, 1
  {
    hide Normalize, Publishes, MergedComponents, IsBody, NoCollision, Refs, Corresponds, LeadsAstray, IsTight,
      WholeBook;
    var a, b := p[i + 1], RefTarget(w.members["$ref"]).value;
    var path := PathTo(p, i);
    RefIs(v, a);
    NextOnPath(names, schemas, p, i);
    var f := PublishesRef(names, schemas, w, b, NamesAt(names, path));
    NormalizeRef(v, a, schemas, path);
    if i + 1 == |p| - 1 {
      BodyHasAForm(names, schemas, a, path + {a});
    } else {
      assert Corresponds(names, schemas, schemas[a], schemas[f]);
      ChainDiffers(names, schemas, p, i + 1, schemas[a], schemas[f]);
    }
  }

  lemma RefIs(v: Json, r: string)
    requires IsRef(v) && r in Refs(v)
    ensures RefTarget(v.members["$ref"]) == Some(r)
  {
  }

  /** The next component of such a chain is not on the path; its name is when the chain ends there. */
  lemma NextOnPath(names: map<string, string>, schemas: Components, p: seq<string>, i: nat)
    requires WholeBook(names, schemas) && LeadsAstray(names, schemas, p) && IsTight(names, p) && i < |p| - 1
    ensures var (path, a) := (PathTo(p, i), p[i + 1]);
      && a in names && a in schemas && a !in path
      && (names[a] in NamesAt(names, path) <==> i + 1 == |p| - 1)
      && (i + 1 < |p| - 1 ==>
        && p[i + 2] in Refs(schemas[a]) && PathTo(p, i + 1) == path + {a}
        && NamesAt(names, path + {a}) == NamesAt(names, path) + {names[a]})
  {
    hide Refs, IsBody;
    var path, a := PathTo(p, i), p[i + 1];
    assert p[0] in path;
    assert names[p[0]] in NamesAt(names, path);
    forall j | 0 <= j <= i ensures p[j] != a {
      if 0 < j || i + 1 < |p| - 1 {
        assert names[p[j]] != names[a];
      }
    }
    if i + 1 < |p| - 1 {
      assert names[a] !in NamesAt(names, path);
      assert PathTo(p, i + 1) == path + {a};
      assert NamesAt(names, path + {a}) == NamesAt(names, path) + {names[a]};
    }
  }

  /** The keyword a reference stands under; it is kept. */
  lemma KeyOfRef(v: Json, r: string) returns (k: string)
    requires !IsRef(v) && r in Refs(v)
    ensures v.Obj? && Retains(v, k) && r in KeywordRefs(k, v.members[k]) && k !in {"nullable", "type"}
  {
    k :| k in v.members && r in KeywordRefs(k, v.members[k]);
    SchemasAreKept(k, v.members[k], r);
  }

  lemma {:induction false} KeywordDiffers(
      names: map<string, string>, schemas: Components, p: seq<string>, i: nat, key: string, v: Json, w: Json)
    requires WholeBook(names, schemas) && AllCorrespond(names, schemas) && NoCollision(names, schemas)
    requires LeadsAstray(names, schemas, p) && IsTight(names, p) && i < |p| - 1
    requires p[i + 1] in KeywordRefs(key, v) && KeywordCorresponds(names, schemas, key, v, w)
    ensures Keyword(key, RenameKeyword(key, w, PublicName(names)), MergedComponents(names, schemas),
        NamesAt(names, PathTo(p, i)))
      != Keyword(key, v, schemas, PathTo(p, i))
    decreases |p| - i, v, 3
  {
    hide *;
    var path, at := PathTo(p, i), NamesAt(names, PathTo(p, i));
    if key == "properties" {
      var x := PropertyOfRef(names, schemas, v, w, p[i + 1]);
      ChainDiffers(names, schemas, p, i, v.members[x], w.members[x]);
      PropertyDiffers(names, schemas, v, w, x, path, at);
    } else if key in {"items", "additionalProperties", "not"} {
      WholeIsRef(names, schemas, key, v, w);
      ChainDiffers(names, schemas, p, i, v, w);
      WholeDiffers(names, schemas, key, v, w, path, at);
    } else {
      var y := ItemOfRef(names, schemas, key, v, w, p[i + 1]);
      ChainDiffers(names, schemas, p, i, v.items[y], w.items[y]);
      ItemDiffers(names, schemas, key, v, w, y, path, at);
    }
  }

  /** Where under a keyword a reference stands, and what corresponds to it there. */
  lemma PropertyOfRef(names: map<string, string>, schemas: Components, v: Json, w: Json, r: string)
    returns (x: string)
    requires r in KeywordRefs("properties", v) && KeywordCorresponds(names, schemas, "properties", v, w)
    ensures v.Obj? && w.Obj? && x in v.members && x in w.members && v.members[x] < v
    ensures r in Refs(v.members[x]) && Corresponds(names, schemas, v.members[x], w.members[x])
  {
    hide Refs, Corresponds;
    x :| x in v.members && r in Refs(v.members[x]);
  }

  lemma ItemOfRef(names: map<string, string>, schemas: Components, key: string, v: Json, w: Json, r: string)
    returns (y: nat)
    requires key !in {"properties", "items", "additionalProperties", "not"}
    requires r in KeywordRefs(key, v) && KeywordCorresponds(names, schemas, key, v, w)
    ensures key in {"allOf", "anyOf", "oneOf"} && v.Arr? && w.Arr? && y < |v.items| && y < |w.items| && v.items[y] < v
    ensures r in Refs(v.items[y]) && Corresponds(names, schemas, v.items[y], w.items[y])
  {
    hide Refs, Corresponds;
    y :| 0 <= y < |v.items| && r in Refs(v.items[y]);
  }

  lemma WholeIsRef(names: map<string, string>, schemas: Components, key: string, v: Json, w: Json)
    requires key in {"items", "additionalProperties", "not"} && KeywordCorresponds(names, schemas, key, v, w)
    ensures KeywordRefs(key, v) == Refs(v) && Corresponds(names, schemas, v, w)
  {
    hide Refs, Corresponds;
  }

  lemma PropertyDiffers(names: map<string, string>, schemas: Components, v: Json, w: Json, x: string,
      path: set<string>, at: set<string>)
    requires WholeBook(names, schemas) && v.Obj? && w.Obj? && x in v.members && x in w.members
    requires Publishes(names, schemas, w.members[x], at).out != Normalize(v.members[x], schemas, path).out
    ensures
      var (rho, merged) := (PublicName(names), MergedComponents(names, schemas));
      Keyword("properties", RenameKeyword("properties", w, rho), merged, at) != Keyword("properties", v, schemas, path)
  {
    hide Normalize, Rename, MergedComponents, WholeBook;
    var rho, merged := PublicName(names), MergedComponents(names, schemas);
    var drafted := Keyword("properties", v, schemas, path);
    var merges := Keyword("properties", RenameKeyword("properties", w, rho), merged, at);
    assert drafted.members[x] != merges.members[x];
  }

  lemma WholeDiffers(names: map<string, string>, schemas: Components, key: string, v: Json, w: Json,
      path: set<string>, at: set<string>)
    requires WholeBook(names, schemas) && key in {"items", "additionalProperties", "not"}
    requires Publishes(names, schemas, w, at).out != Normalize(v, schemas, path).out
    ensures Keyword(key, RenameKeyword(key, w, PublicName(names)), MergedComponents(names, schemas), at)
      != Keyword(key, v, schemas, path)
  {
    hide Normalize, Rename, MergedComponents, WholeBook;
  }

  lemma ItemDiffers(names: map<string, string>, schemas: Components, key: string, v: Json, w: Json, x: nat,
      path: set<string>, at: set<string>)
    requires WholeBook(names, schemas) && key in {"allOf", "anyOf", "oneOf"}
    requires v.Arr? && w.Arr? && x < |v.items| && x < |w.items|
    requires Publishes(names, schemas, w.items[x], at).out != Normalize(v.items[x], schemas, path).out
    ensures Keyword(key, RenameKeyword(key, w, PublicName(names)), MergedComponents(names, schemas), at)
      != Keyword(key, v, schemas, path)
  {
    hide Normalize, Rename, MergedComponents, WholeBook;
    var rho, merged := PublicName(names), MergedComponents(names, schemas);
    var drafted := Keyword(key, v, schemas, path);
    var merges := Keyword(key, RenameKeyword(key, w, rho), merged, at);
    assert |merges.items| == |w.items| && drafted.items[x] != merges.items[x];
  }

  /** The members of a normalised object that is no reference. */
  lemma NormalizedMembers(v: Json, schemas: Components, path: set<string>) returns (result: map<string, Json>)
    requires v.Obj? && !IsRef(v)
    ensures forall k | Retains(v, k) :: k in result && result[k] == Keyword(k, v.members[k], schemas, path)
    ensures Normalize(v, schemas, path).out ==
      if SoleCut(v, schemas, path) && IsNullableWrapper(result) then EMPTY else Obj(result)
  {
    var m := v.members;
    result := map k | k in m && IsKept(k, m[k]) :: Keyword(k, m[k], schemas, path);
  }

  /** Objects that differ under a keyword that holds schemas differ. */
  lemma ObjectDiffers(v: Json, w: Json, key: string, a: Components, b: Components, pa: set<string>, pb: set<string>)
    requires v.Obj? && w.Obj? && !IsRef(v) && !IsRef(w) && Retains(v, key) && Retains(w, key)
    requires key !in {"nullable", "type"}
    requires Keyword(key, v.members[key], a, pa) != Keyword(key, w.members[key], b, pb)
    ensures Normalize(w, b, pb).out != Normalize(v, a, pa).out
  {
    hide Normalize, Keyword, SoleCut, IsKept;
    var rv := NormalizedMembers(v, a, pa);
    var rw := NormalizedMembers(w, b, pb);
    if key == "allOf" && SoleCut(v, a, pa) && SoleCut(w, b, pb) {
      SoleCutIsEmpty(v, a, pa);
      SoleCutIsEmpty(w, b, pb);
      assert false;
    }
  }

  lemma SoleCutIsEmpty(v: Json, schemas: Components, path: set<string>)
    requires v.Obj? && SoleCut(v, schemas, path)
    ensures "allOf" in v.members && Keyword("allOf", v.members["allOf"], schemas, path) == Arr([EMPTY])
  {
    var only := v.members["allOf"];
    CutIsEmpty(only.items[0], schemas, path);
    hide Normalize;
    assert Keyword("allOf", only, schemas, path).items == [EMPTY];
  }

  lemma CutIsEmpty(v: Json, schemas: Components, path: set<string>)
    requires Normalize(v, schemas, path).cut
    ensures Normalize(v, schemas, path).out == EMPTY
  {
  }

  // ---------------------------------------------------------------- the condition

  lemma {:induction false} CorrespondsSelf(names: map<string, string>, schemas: Components, v: Json)
    requires WholeBook(names, schemas) && Refs(v) <= schemas.Keys
    ensures Corresponds(names, schemas, v, v)
    decreases v
  {
    hide IsBody;
    if v.Obj? && !IsRef(v) {
      forall k | Retains(v, k) ensures KeywordCorresponds(names, schemas, k, v.members[k], v.members[k]) {
        forall part | IsPart(k, v.members[k], part) ensures Corresponds(names, schemas, part, part) {
          PartDecreases(v, k, part);
          PartRefs(k, v.members[k], part);
          CorrespondsSelf(names, schemas, part);
        }
        KeywordCorrespondsSelf(names, schemas, k, v.members[k]);
      }
    }
  }

  lemma KeywordCorrespondsSelf(names: map<string, string>, schemas: Components, key: string, v: Json)
    requires forall part | IsPart(key, v, part) :: Corresponds(names, schemas, part, part)
    ensures KeywordCorresponds(names, schemas, key, v, v)
  {
    hide Corresponds;
    if HoldsSchemas(key, v) {
      if key == "properties" {
        forall p | p in v.members ensures Corresponds(names, schemas, v.members[p], v.members[p]) {
          assert IsPart(key, v, v.members[p]);
        }
      } else if key in {"items", "additionalProperties", "not"} {
        assert IsPart(key, v, v);
      } else {
        forall i | 0 <= i < |v.items| ensures Corresponds(names, schemas, v.items[i], v.items[i]) {
          assert IsPart(key, v, v.items[i]);
        }
      }
    }
  }

  /** Every schema over the components is published with the form it has. */
  ghost predicate FormsAreKept(names: map<string, string>, schemas: Components)
    requires WholeBook(names, schemas)
  {
    forall v | Refs(v) <= schemas.Keys :: Publishes(names, schemas, v, {}) == Normalize(v, schemas, {})
  }

  /** Every component is published with the form it has. */
  ghost predicate ComponentsKeepForms(names: map<string, string>, schemas: Components)
    requires WholeBook(names, schemas)
  {
    forall k | k in names :: Publishes(names, schemas, RefTo(k), {}) == Normalize(RefTo(k), schemas, {})
  }

  /** When no name collides and components of one name correspond, merging keeps every component's
      normal form exactly when no component reaches another one of its name; and then it keeps the
      form of every schema over them. */
  lemma FormsAreKeptWhenSeparate(names: map<string, string>, schemas: Components)
    requires WholeBook(names, schemas) && AllCorrespond(names, schemas) && NoCollision(names, schemas)
    ensures ComponentsKeepForms(names, schemas) <==> Separate(names, schemas)
    ensures FormsAreKept(names, schemas) <==> Separate(names, schemas)
  {
    hide Normalize, Publishes, IsBody, AllCorrespond, NoCollision;
    assert NamesAt(names, {}) == {};
    if Separate(names, schemas) {
      forall v | Refs(v) <= schemas.Keys ensures Publishes(names, schemas, v, {}) == Normalize(v, schemas, {}) {
        CorrespondsSelf(names, schemas, v);
        Agrees(names, schemas, v, v, {});
      }
      forall k | k in names ensures Refs(RefTo(k)) <= schemas.Keys {
        RefTargetOfName(k);
      }
    } else {
      var j, k :| j in names && k in names && names[j] == names[k] && Reaches(schemas, j, k) && j != k;
      var p := Astray(names, schemas, j, k);
      FirstDiffers(names, schemas, p);
    }
  }

  /** Every key whose name another key shares reaches no cycle. */
  ghost predicate SharedAreSettled(names: map<string, string>, schemas: Components) {
    forall j, k | j in names && k in names && names[j] == names[k] && j != k :: SettledKey(schemas, j)
  }

  /** Components of one name that reach no cycle correspond, and none reaches another. */
  lemma SettledNamesMerge(names: map<string, string>, schemas: Components)
    requires WholeBook(names, schemas) && NoCollision(names, schemas) && SharedAreSettled(names, schemas)
    ensures AllCorrespond(names, schemas) && Separate(names, schemas)
  {
    hide FormOf, IsBody, SettledKey;
    forall k | k in names ensures Corresponds(names, schemas, schemas[k], schemas[FirstKey(names, names[k])]) {
      var f := MergedAt(names, schemas, k);
      if f == k {
        CorrespondsSelf(names, schemas, schemas[k]);
      } else {
        SettledBody(schemas, k);
        SettledBody(schemas, f);
        FormOfSettled(names, schemas, k);
        FormOfSettled(names, schemas, f);
      }
    }
    forall j, k | j in names && k in names && names[j] == names[k] && Reaches(schemas, j, k) ensures j == k {
      if j != k {
        ReachedIsSmaller(names, schemas, j, k);
        assert false;
      }
    }
  }

  lemma Astray(names: map<string, string>, schemas: Components, j: string, k: string) returns (p: seq<string>)
    requires WholeBook(names, schemas)
    requires j in names && k in names && names[j] == names[k] && Reaches(schemas, j, k) && j != k
    ensures LeadsAstray(names, schemas, p) && IsTight(names, p)
  {
    hide Refs, IsBody;
    var q :| IsChain(schemas, q) && q[0] == j && q[|q| - 1] == k;
    forall i | 0 <= i < |q| ensures q[i] in names {
      if i < |q| - 1 { assert q[i] in schemas; }
    }
    p := Tighten(names, schemas, q);
  }

  /** A reference to where such a chain starts is published with another form. */
  lemma FirstDiffers(names: map<string, string>, schemas: Components, p: seq<string>)
    requires WholeBook(names, schemas) && AllCorrespond(names, schemas) && NoCollision(names, schemas)
    requires LeadsAstray(names, schemas, p) && IsTight(names, p)
    ensures Refs(RefTo(p[0])) <= schemas.Keys
    ensures Publishes(names, schemas, RefTo(p[0]), {}).out != Normalize(RefTo(p[0]), schemas, {}).out
  {
    var start := p[0];
    hide *;
    var v := RefTo(start);
    StartOfChain(names, schemas, p);
    var f := PublishesRef(names, schemas, v, start, {});
    NormalizeRef(v, start, schemas, {});
    FirstCorresponds(names, schemas, start);
    ChainDiffers(names, schemas, p, 0, schemas[start], schemas[f]);
  }

  lemma StartOfChain(names: map<string, string>, schemas: Components, p: seq<string>)
    requires WholeBook(names, schemas) && LeadsAstray(names, schemas, p)
    ensures var v := RefTo(p[0]);
      && IsRef(v) && RefTarget(v.members["$ref"]) == Some(p[0]) && Refs(v) <= schemas.Keys
      && p[0] in names && p[0] in schemas && 0 < |p| - 1 && p[1] in Refs(schemas[p[0]])
      && PathTo(p, 0) == {} + {p[0]} && NamesAt(names, PathTo(p, 0)) == {} + {names[p[0]]}
  {
    hide IsBody;
    RefTargetOfName(p[0]);
    assert PathTo(p, 0) == {} + {p[0]};
    assert NamesAt(names, PathTo(p, 0)) == {} + {names[p[0]]};
  }

  lemma FirstCorresponds(names: map<string, string>, schemas: Components, k: string)
    requires WholeBook(names, schemas) && AllCorrespond(names, schemas) && k in names && names[k] in NamesOf(names)
    ensures FirstKey(names, names[k]) in schemas && k in schemas
    ensures Corresponds(names, schemas, schemas[k], schemas[FirstKey(names, names[k])])
  {
  }
}
