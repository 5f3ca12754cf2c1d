/** Components that share a public name: what merging them under it does to normal forms. */
module SharedNames {
  import opened JsonTrees
  import opened Options
  import opened Hash
  import opened HashNaming
  import opened HashHoisting
  import opened DeriverLaws
  import opened Derivation

  // ---------------------------------------------------------------- chains of references

  ghost predicate Leads(schemas: Components, a: string, b: string) { a == b || Reaches(schemas, a, b) }

  lemma ReachesStep(schemas: Components, a: string, b: string)
    requires a in schemas && b in Refs(schemas[a])
    ensures Reaches(schemas, a, b)
  {
    var p := [a, b];
    assert IsChain(schemas, p) && p[0] == a && p[|p| - 1] == b;
  }

  lemma ReachesTrans(schemas: Components, a: string, b: string, c: string)
    requires Reaches(schemas, a, b) && Reaches(schemas, b, c)
    ensures Reaches(schemas, a, c)
  {
    hide Refs;
    var p :| IsChain(schemas, p) && p[0] == a && p[|p| - 1] == b;
    var q :| IsChain(schemas, q) && q[0] == b && q[|q| - 1] == c;
    var r := p + q[1..];
    forall i | 0 <= i < |r| - 1 ensures r[i] in schemas && r[i + 1] in Refs(schemas[r[i]]) {
      if i >= |p| - 1 {
        assert r[i] == q[i - (|p| - 1)] && r[i + 1] == q[i + 1 - (|p| - 1)];
      }
    }
    assert IsChain(schemas, r) && r[0] == a && r[|r| - 1] == c;
  }

  lemma LeadsTrans(schemas: Components, a: string, b: string, c: string)
    requires Leads(schemas, a, b) && Leads(schemas, b, c)
    ensures Leads(schemas, a, c)
    ensures Reaches(schemas, a, b) || Reaches(schemas, b, c) ==> Reaches(schemas, a, c)
  {
    if Reaches(schemas, a, b) && Reaches(schemas, b, c) {
      ReachesTrans(schemas, a, b, c);
    }
  }

  lemma ReachesFirst(schemas: Components, a: string, c: string) returns (r: string)
    requires Reaches(schemas, a, c)
    ensures a in schemas && r in Refs(schemas[a]) && Leads(schemas, r, c)
  {
    var p :| IsChain(schemas, p) && p[0] == a && p[|p| - 1] == c;
    r := p[1];
    if |p| > 2 {
      var q := p[1..];
      assert IsChain(schemas, q) && q[0] == r && q[|q| - 1] == c;
    }
  }

  // ---------------------------------------------------------------- schemas that reach no cycle

  ghost predicate SettledKey(schemas: Components, k: string) {
    forall c | Leads(schemas, k, c) :: Acyclic(schemas, c)
  }

  /** No reference of v leads into a cycle of references. */
  ghost predicate Settled(schemas: Components, v: Json) {
    forall r | r in Refs(v) :: SettledKey(schemas, r)
  }

  lemma SettledBody(schemas: Components, k: string)
    requires k in schemas
    ensures SettledKey(schemas, k) <==> Settled(schemas, schemas[k])
  {
    if SettledKey(schemas, k) {
      forall r, c | r in Refs(schemas[k]) && Leads(schemas, r, c) ensures Acyclic(schemas, c) {
        ReachesStep(schemas, k, r);
        LeadsTrans(schemas, k, r, c);
      }
    }
    if Settled(schemas, schemas[k]) {
      forall c | Leads(schemas, k, c) ensures Acyclic(schemas, c) {
        if Reaches(schemas, k, c) {
          var r := ReachesFirst(schemas, k, c);
          assert SettledKey(schemas, r);
        }
      }
    }
  }

  lemma SettledReached(schemas: Components, a: string, b: string)
    requires SettledKey(schemas, a) && Reaches(schemas, a, b)
    ensures SettledKey(schemas, b)
  {
    forall c | Leads(schemas, b, c) ensures Acyclic(schemas, c) {
      LeadsTrans(schemas, a, b, c);
    }
  }

  // ---------------------------------------------------------------- normal forms from the empty path

  ghost function FormOf(schemas: Components, v: Json): Json { Normalize(v, schemas, {}).out }

  lemma NeverCutAtFirst(schemas: Components, v: Json)
    ensures !Normalize(v, schemas, {}).cut
  {
  }

  lemma FormOfObject(schemas: Components, v: Json)
    requires v.Obj? && "$ref" !in v.members
    ensures Normalize(v, schemas, {}) == Normal(FormOf(schemas, v), false)
    ensures var m := v.members;
      FormOf(schemas, v) == Obj(map k | k in m && IsKept(k, m[k]) :: Keyword(k, m[k], schemas, {}))
  {
    var m := v.members;
    if "allOf" in m && m["allOf"].Arr? && |m["allOf"].items| == 1 {
      NeverCutAtFirst(schemas, m["allOf"].items[0]);
    }
  }

  /** The keywords that hold schemas, given their value. */
  predicate HoldsSchemas(key: string, v: Json) {
    || (key == "properties" && v.Obj?)
    || key in {"items", "additionalProperties", "not"}
    || (key in {"allOf", "anyOf", "oneOf"} && v.Arr?)
  }

  /** The schemas directly under a keyword. */
  ghost predicate IsPart(key: string, v: Json, part: Json) {
    if key == "properties" && v.Obj? then exists p :: p in v.members && v.members[p] == part
    else if key in {"items", "additionalProperties", "not"} then part == v
    else key in {"allOf", "anyOf", "oneOf"} && v.Arr? && exists i :: 0 <= i < |v.items| && v.items[i] == part
  }

  lemma PartRefs(key: string, v: Json, part: Json)
    requires IsPart(key, v, part)
    ensures HoldsSchemas(key, v) && Refs(part) <= KeywordRefs(key, v)
  {
    if key == "properties" && v.Obj? {
      var p :| p in v.members && v.members[p] == part;
    } else if key !in {"items", "additionalProperties", "not"} {
      var i :| 0 <= i < |v.items| && v.items[i] == part;
    }
  }

  lemma RefIsInPart(key: string, v: Json, r: string) returns (part: Json)
    requires r in KeywordRefs(key, v)
    ensures HoldsSchemas(key, v) && IsPart(key, v, part) && r in Refs(part)
  {
    if key == "properties" && v.Obj? {
      var p :| p in v.members && r in Refs(v.members[p]);
      part := v.members[p];
    } else if key in {"items", "additionalProperties", "not"} {
      part := v;
    } else {
      var i :| 0 <= i < |v.items| && r in Refs(v.items[i]);
      part := v.items[i];
    }
  }

  /** A keyword that holds a reference is kept. */
  lemma SchemasAreKept(key: string, v: Json, r: string)
    requires r in KeywordRefs(key, v)
    ensures IsKept(key, v)
  {
    KeywordsAreKept();
  }

  /** A part's form is inside the whole's. */
  lemma PartIsSmaller(schemas: Components, v: Json, key: string, part: Json)
    requires v.Obj? && "$ref" !in v.members && key in v.members && IsKept(key, v.members[key])
    requires IsPart(key, v.members[key], part)
    ensures FormOf(schemas, part) < FormOf(schemas, v)
  {
    FormOfObject(schemas, v);
    var m := v.members;
    var whole, under := FormOf(schemas, v), Keyword(key, m[key], schemas, {});
    assert key in whole.members && whole.members[key] == under;
    assert under < whole;
    if key == "properties" && m[key].Obj? {
      var p :| p in m[key].members && m[key].members[p] == part;
      assert p in under.members && under.members[p] == FormOf(schemas, part);
    } else if key !in {"items", "additionalProperties", "not"} {
      var i :| 0 <= i < |m[key].items| && m[key].items[i] == part;
      assert under.items[i] == FormOf(schemas, part);
      assert under.items[i] < under;
    }
  }

  // ---------------------------------------------------------------- the setting

  /** A finished book: every component has a name and an object body, and refers to components only. */
  ghost predicate WholeBook(names: map<string, string>, schemas: Components) {
    && names.Keys == schemas.Keys
    && forall k | k in schemas :: Refs(schemas[k]) <= schemas.Keys && IsBody(schemas[k])
  }

  /** x is below v: a reference of v leads to it. */
  ghost predicate Below(schemas: Components, v: Json, x: string) {
    exists r :: r in Refs(v) && Leads(schemas, r, x)
  }

  lemma {:induction false} ChainInBook(names: map<string, string>, schemas: Components, p: seq<string>)
    requires WholeBook(names, schemas) && IsChain(schemas, p)
    ensures p[0] in schemas && p[|p| - 1] in schemas
  {
    hide Refs, IsBody;
    var i := |p| - 2;
    assert p[i] in schemas && p[i + 1] in Refs(schemas[p[i]]);
  }

  /** A schema none of whose references leads into the path is read as from the empty path. */
  lemma PathIsIrrelevant(names: map<string, string>, schemas: Components, v: Json, path: set<string>)
    requires WholeBook(names, schemas) && Refs(v) <= schemas.Keys
    requires forall x | Below(schemas, v, x) :: x !in path
    ensures Normalize(v, schemas, path) == Normal(FormOf(schemas, v), false)
  {
    hide IsBody, Normalize;
    var below := set x | x in schemas && Below(schemas, v, x);
    forall r | r in Refs(v) ensures r in below {
      assert Leads(schemas, r, r);
    }
    forall x, y | x in below && y in Refs(schemas[x]) ensures y in below {
      var r :| r in Refs(v) && Leads(schemas, r, x);
      ReachesStep(schemas, x, y);
      LeadsTrans(schemas, r, x, y);
    }
    NormalizeWithin(v, below, schemas, schemas, path, {});
    NeverCutAtFirst(schemas, v);
  }

  lemma FormOfRef(schemas: Components, v: Json, k: string)
    requires IsRef(v) && RefTarget(v.members["$ref"]) == Some(k) && k in schemas
    ensures Refs(v) == {k} && FormOf(schemas, v) == FormOf(schemas, RefTo(k))
    ensures FormOf(schemas, RefTo(k)) == Normalize(schemas[k], schemas, {k}).out
  {
    RefTargetOfName(k);
    assert {} + {k} == {k};
  }

  /** Under a settled key, the component's form is its body's. */
  lemma FormOfSettled(names: map<string, string>, schemas: Components, k: string)
    requires WholeBook(names, schemas) && k in schemas && SettledKey(schemas, k)
    ensures FormOf(schemas, RefTo(k)) == FormOf(schemas, schemas[k])
  {
    hide Normalize, IsBody;
    RefTargetOfName(k);
    FormOfRef(schemas, RefTo(k), k);
    forall x | Below(schemas, schemas[k], x) ensures x != k {
      var r :| r in Refs(schemas[k]) && Leads(schemas, r, x);
      ReachesStep(schemas, k, r);
      LeadsTrans(schemas, k, r, x);
      assert Acyclic(schemas, k);
    }
    PathIsIrrelevant(names, schemas, schemas[k], {k});
  }

  /** A reference's form is inside the schema's. */
  lemma {:induction false} RefIsSmaller(schemas: Components, v: Json, r: string)
    requires r in Refs(v) && r in schemas
    ensures if IsRef(v) then FormOf(schemas, RefTo(r)) == FormOf(schemas, v)
            else FormOf(schemas, RefTo(r)) < FormOf(schemas, v)
    decreases v
  {
    hide FormOf;
    if IsRef(v) {
      FormOfRef(schemas, v, r);
    } else {
      var k :| k in v.members && r in KeywordRefs(k, v.members[k]);
      var part := RefIsInPart(k, v.members[k], r);
      SchemasAreKept(k, v.members[k], r);
      PartIsSmaller(schemas, v, k, part);
      PartDecreases(v, k, part);
      RefIsSmaller(schemas, part, r);
    }
  }

  lemma PartDecreases(v: Json, key: string, part: Json)
    requires v.Obj? && key in v.members && IsPart(key, v.members[key], part)
    ensures part < v
  {
    var m := v.members;
    assert m[key] < v;
    if key == "properties" && m[key].Obj? {
      var p :| p in m[key].members && m[key].members[p] == part;
    } else if key !in {"items", "additionalProperties", "not"} {
      var i :| 0 <= i < |m[key].items| && m[key].items[i] == part;
    }
  }

  /** Along a chain from a settled key forms get strictly smaller. */
  lemma {:induction false} ChainShrinks(names: map<string, string>, schemas: Components, p: seq<string>)
    requires WholeBook(names, schemas) && IsChain(schemas, p) && SettledKey(schemas, p[0])
    ensures p[0] in schemas && p[|p| - 1] in schemas
    ensures FormOf(schemas, RefTo(p[|p| - 1])) < FormOf(schemas, RefTo(p[0]))
    decreases |p|
  {
    hide FormOf, Refs, IsBody;
    ChainInBook(names, schemas, p);
    assert p[0] in schemas && p[1] in Refs(schemas[p[0]]);
    FormOfSettled(names, schemas, p[0]);
    BodyIsNoRef(names, schemas, p[0]);
    RefIsSmaller(schemas, schemas[p[0]], p[1]);
    if |p| > 2 {
      var q := p[1..];
      assert IsChain(schemas, q) && q[|q| - 1] == p[|p| - 1];
      ReachesStep(schemas, p[0], p[1]);
      SettledReached(schemas, p[0], p[1]);
      ChainShrinks(names, schemas, q);
    }
  }

  lemma BodyIsNoRef(names: map<string, string>, schemas: Components, k: string)
    requires WholeBook(names, schemas) && k in schemas
    ensures !IsRef(schemas[k]) && Refs(schemas[k]) <= schemas.Keys
  {
  }

  lemma ReachedIsSmaller(names: map<string, string>, schemas: Components, a: string, b: string)
    requires WholeBook(names, schemas) && SettledKey(schemas, a) && Reaches(schemas, a, b)
    ensures a in schemas && b in schemas && FormOf(schemas, RefTo(b)) < FormOf(schemas, RefTo(a))
  {
    var p :| IsChain(schemas, p) && p[0] == a && p[|p| - 1] == b;
    ChainShrinks(names, schemas, p);
  }

  // ---------------------------------------------------------------- bodies that correspond

  /** v and w correspond: where they refer to components of one name they may refer to different ones;
      parts that reach no cycle need only the same normal form; all else is alike. */
  ghost predicate Corresponds(names: map<string, string>, schemas: Components, v: Json, w: Json)
    decreases v, 0
  {
    || (Settled(schemas, v) && Settled(schemas, w) && FormOf(schemas, v) == FormOf(schemas, w))
    || RefersAlike(names, v, w)
    || (v.Obj? && w.Obj? && !IsRef(v) && !IsRef(w)
        && (forall k :: Retains(v, k) <==> Retains(w, k))
        && (forall k | Retains(v, k) :: KeywordCorresponds(names, schemas, k, v.members[k], w.members[k])))
  }

  /** Two references to components of one name. */
  ghost predicate RefersAlike(names: map<string, string>, v: Json, w: Json) {
    && IsRef(v) && IsRef(w)
    && RefTarget(v.members["$ref"]).Some? && RefTarget(w.members["$ref"]).Some?
    && var (a, b) := (RefTarget(v.members["$ref"]).value, RefTarget(w.members["$ref"]).value);
       a in names && b in names && names[a] == names[b]
  }

  ghost predicate KeywordCorresponds(names: map<string, string>, schemas: Components, key: string, v: Json, w: Json)
    decreases v, 1
  {
    if !HoldsSchemas(key, v) || !HoldsSchemas(key, w) then
      !HoldsSchemas(key, v) && !HoldsSchemas(key, w) && Keyword(key, v, schemas, {}) == Keyword(key, w, schemas, {})
    else if key == "properties" then
      v.members.Keys == w.members.Keys
      && forall p | p in v.members :: Corresponds(names, schemas, v.members[p], w.members[p])
    else if key in {"items", "additionalProperties", "not"} then Corresponds(names, schemas, v, w)
    else
      |v.items| == |w.items| && forall i | 0 <= i < |v.items| :: Corresponds(names, schemas, v.items[i], w.items[i])
  }

  /** Every component corresponds to the one its name publishes. */
  ghost predicate AllCorrespond(names: map<string, string>, schemas: Components)
    requires WholeBook(names, schemas)
  {
    forall k | k in names :: Corresponds(names, schemas, schemas[k], schemas[FirstKey(names, names[k])])
  }

  /** No component reaches another one of its name. */
  ghost predicate Separate(names: map<string, string>, schemas: Components) {
    forall j, k | j in names && k in names && names[j] == names[k] && Reaches(schemas, j, k) :: j == k
  }

  /** No two components of one name have different normal forms: what Derive checks. */
  ghost predicate NoCollision(names: map<string, string>, schemas: Components) {
    forall j, k | j in names && k in names && names[j] == names[k] ::
      FormOf(schemas, RefTo(j)) == FormOf(schemas, RefTo(k))
  }

  /** A part of v, with the part of w in its place. */
  lemma CorrespondingPart(names: map<string, string>, schemas: Components, key: string, v: Json, w: Json, part: Json)
    returns (other: Json)
    requires KeywordCorresponds(names, schemas, key, v, w) && IsPart(key, v, part)
    ensures IsPart(key, w, other) && Corresponds(names, schemas, part, other)
  {
    PartRefs(key, v, part);
    if key == "properties" {
      var p :| p in v.members && v.members[p] == part;
      other := w.members[p];
    } else if key in {"items", "additionalProperties", "not"} {
      other := w;
    } else {
      var i :| 0 <= i < |v.items| && v.items[i] == part;
      other := w.items[i];
    }
  }

  lemma CorrespondingPartBack(names: map<string, string>, schemas: Components, key: string, v: Json, w: Json,
      other: Json)
    returns (part: Json)
    requires KeywordCorresponds(names, schemas, key, v, w) && IsPart(key, w, other)
    ensures IsPart(key, v, part) && Corresponds(names, schemas, part, other)
  {
    PartRefs(key, w, other);
    if key == "properties" {
      var p :| p in w.members && w.members[p] == other;
      part := v.members[p];
    } else if key in {"items", "additionalProperties", "not"} {
      part := v;
    } else {
      var i :| 0 <= i < |w.items| && w.items[i] == other;
      part := v.items[i];
    }
  }

  // ---------------------------------------------------------------- one name, one kind

  /** What corresponds to a schema that reaches no cycle reaches none either. */
  lemma {:induction false} SettledTogether(names: map<string, string>, schemas: Components, v: Json, w: Json)
    requires WholeBook(names, schemas) && AllCorrespond(names, schemas) && NoCollision(names, schemas)
    requires Refs(v) <= schemas.Keys && Refs(w) <= schemas.Keys
    requires Settled(schemas, w) && (Corresponds(names, schemas, v, w) || Corresponds(names, schemas, w, v))
    ensures Settled(schemas, v)
    decreases FormOf(schemas, w), if IsRef(w) then 1 else 0, 1
  {
    hide FormOf, IsBody, AllCorrespond, SettledKey;
    if RefersAlike(names, v, w) || RefersAlike(names, w, v) {
      var a, b := RefTarget(v.members["$ref"]).value, RefTarget(w.members["$ref"]).value;
      SettledNames(names, schemas, v, w, a, b);
    } else if !Settled(schemas, v) {
      forall r | r in Refs(v) ensures SettledKey(schemas, r) {
        var k :| k in v.members && r in KeywordRefs(k, v.members[k]);
        var part := RefIsInPart(k, v.members[k], r);
        SchemasAreKept(k, v.members[k], r);
        assert Retains(v, k);
        var other;
        if Corresponds(names, schemas, v, w) {
          other := CorrespondingPart(names, schemas, k, v.members[k], w.members[k], part);
        } else {
          other := CorrespondingPartBack(names, schemas, k, w.members[k], v.members[k], part);
        }
        PartRefs(k, v.members[k], part);
        PartRefs(k, w.members[k], other);
        PartIsSmaller(schemas, w, k, other);
        SettledTogether(names, schemas, part, other);
      }
    }
  }

  lemma {:induction false} SettledNames(names: map<string, string>, schemas: Components, v: Json, w: Json, a: string,
      b: string)
    requires WholeBook(names, schemas) && AllCorrespond(names, schemas) && NoCollision(names, schemas)
    requires IsRef(v) && RefTarget(v.members["$ref"]) == Some(a) && a in names
    requires IsRef(w) && RefTarget(w.members["$ref"]) == Some(b) && b in names && names[a] == names[b]
    requires Settled(schemas, w)
    ensures Settled(schemas, v)
    decreases FormOf(schemas, w), 1, 0
  {
    hide FormOf, IsBody, SettledKey;
    var f := FirstKey(names, names[a]);
    FormOfRef(schemas, w, b);
    FormOfRef(schemas, v, a);
    FormOfSettled(names, schemas, b);
    SettledBody(schemas, b);
    BodyIsNoRef(names, schemas, a);
    BodyIsNoRef(names, schemas, b);
    BodyIsNoRef(names, schemas, f);
    SettledTogether(names, schemas, schemas[f], schemas[b]);
    SettledBody(schemas, f);
    FormOfSettled(names, schemas, f);
    SettledTogether(names, schemas, schemas[a], schemas[f]);
    SettledBody(schemas, a);
  }
}
