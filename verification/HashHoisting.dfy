/** The normal form does not see whether a type was hoisted into a component or written in place:
    replacing every reference to an acyclic component by the component's body changes nothing. */
module HashHoisting {
  import opened JsonTrees
  import opened Options
  import opened Hash

  /** The component names referenced from the schema positions of v. */
  ghost function Refs(v: Json): set<string>
    decreases v, 0
  {
    if !v.Obj? then {}
    else if IsRef(v) then
      var target := RefTarget(v.members["$ref"]);
      if target.Some? then {target.value} else {}
    else set k, r | k in v.members && r in KeywordRefs(k, v.members[k]) :: r
  }

  ghost function KeywordRefs(key: string, v: Json): set<string>
    decreases v, 1
  {
    if key == "properties" && v.Obj? then set p, r | p in v.members && r in Refs(v.members[p]) :: r
    else if key in {"items", "additionalProperties", "not"} then Refs(v)
    else if key in {"allOf", "anyOf", "oneOf"} && v.Arr? then
      set i, r | 0 <= i < |v.items| && r in Refs(v.items[i]) :: r
    else {}
  }

  /** A chain of references from component to component. */
  ghost predicate IsChain(schemas: Components, p: seq<string>) {
    |p| >= 2 && forall i | 0 <= i < |p| - 1 :: p[i] in schemas && p[i + 1] in Refs(schemas[p[i]])
  }

  ghost predicate Reaches(schemas: Components, a: string, b: string) {
    exists p :: IsChain(schemas, p) && p[0] == a && p[|p| - 1] == b
  }

  ghost predicate Acyclic(schemas: Components, c: string) {
    !Reaches(schemas, c, c)
  }

  /** Everything reachable from c. */
  ghost function ReachableFrom(schemas: Components, c: string): set<string> {
    set k, r | k in schemas && r in Refs(schemas[k]) && Reaches(schemas, c, r) :: r
  }

  lemma ReachableIsClosed(schemas: Components, c: string)
    requires c in schemas
    ensures Refs(schemas[c]) <= ReachableFrom(schemas, c)
    ensures forall n | n in ReachableFrom(schemas, c) && n in schemas :: Refs(schemas[n]) <= ReachableFrom(schemas, c)
  {
    forall r | r in Refs(schemas[c]) ensures r in ReachableFrom(schemas, c) {
      var p := [c, r];
      assert IsChain(schemas, p) && p[0] == c && p[|p| - 1] == r;
      assert Reaches(schemas, c, r);
    }
    forall n, r | n in ReachableFrom(schemas, c) && n in schemas && r in Refs(schemas[n])
      ensures r in ReachableFrom(schemas, c)
    {
      var p :| IsChain(schemas, p) && p[0] == c && p[|p| - 1] == n;
      var q := p + [r];
      assert IsChain(schemas, q) && q[0] == c && q[|q| - 1] == r;
      assert Reaches(schemas, c, r);
    }
  }

  /** Puts c's body wherever v refers to c. */
  function Inline(v: Json, c: string, body: Json): Json
    decreases v, 0
  {
    if !v.Obj? then v
    else if IsRef(v) then (if RefTarget(v.members["$ref"]) == Some(c) then body else v)
    else Obj(map k | k in v.members :: InlineKeyword(k, v.members[k], c, body))
  }

  function InlineKeyword(key: string, v: Json, c: string, body: Json): Json
    decreases v, 1
  {
    if key == "properties" && v.Obj? then Obj(map p | p in v.members :: Inline(v.members[p], c, body))
    else if key in {"items", "additionalProperties", "not"} then Inline(v, c, body)
    else if key in {"allOf", "anyOf", "oneOf"} && v.Arr? then
      Arr(seq(|v.items|, i requires 0 <= i < |v.items| => Inline(v.items[i], c, body)))
    else v
  }

  /** The components with c written in place everywhere, and gone. */
  function InlineComponents(schemas: Components, c: string): Components
    requires c in schemas
  {
    map k | k in schemas && k != c :: Inline(schemas[k], c, schemas[c])
  }

  lemma {:induction false} InlineAbsent(v: Json, c: string, body: Json)
    requires c !in Refs(v)
    ensures Inline(v, c, body) == v
    decreases v, 0
  {
    if v.Obj? && !IsRef(v) {
      forall k | k in v.members ensures InlineKeyword(k, v.members[k], c, body) == v.members[k] {
        assert c !in KeywordRefs(k, v.members[k]);
        InlineKeywordAbsent(k, v.members[k], c, body);
      }
    }
  }

  lemma {:induction false} InlineKeywordAbsent(key: string, v: Json, c: string, body: Json)
    requires c !in KeywordRefs(key, v)
    ensures InlineKeyword(key, v, c, body) == v
    decreases v, 1
  {
    if key == "properties" && v.Obj? {
      forall p | p in v.members ensures Inline(v.members[p], c, body) == v.members[p] {
        InlineAbsent(v.members[p], c, body);
      }
    } else if key in {"items", "additionalProperties", "not"} {
      InlineAbsent(v, c, body);
    } else if key in {"allOf", "anyOf", "oneOf"} && v.Arr? {
      forall i | 0 <= i < |v.items| ensures Inline(v.items[i], c, body) == v.items[i] {
        InlineAbsent(v.items[i], c, body);
      }
    }
  }

  /** Two sets of components that agree on a closed set of names. */
  ghost predicate AgreeOn(names: set<string>, a: Components, b: Components) {
    forall n | n in names ::
      (n in a <==> n in b) && (n in a ==> a[n] == b[n] && Refs(a[n]) <= names)
  }

  /** A schema that only reaches a closed set of names is read the same against any components that
      agree there, from any paths that agree there. */
  lemma {:induction false} NormalizeWithin(v: Json, names: set<string>, a: Components, b: Components,
      pa: set<string>, pb: set<string>)
    requires Refs(v) <= names && AgreeOn(names, a, b)
    requires forall n | n in names :: n in pa <==> n in pb
    ensures Normalize(v, a, pa) == Normalize(v, b, pb)
    decreases a.Keys - pa, v, 1
  {
    if IsRef(v) {
      var target := RefTarget(v.members["$ref"]);
      if target.Some? {
        var name := target.value;
        assert name in Refs(v);
        if name !in pa && name in a {
          NormalizeWithin(a[name], names, a, b, pa + {name}, pb + {name});
        }
      }
    } else if v.Obj? {
      var m := v.members;
      forall k | k in m ensures Keyword(k, m[k], a, pa) == Keyword(k, m[k], b, pb) {
        assert KeywordRefs(k, m[k]) <= Refs(v);
        KeywordWithin(k, m[k], names, a, b, pa, pb);
      }
      assert (map k | k in m && IsKept(k, m[k]) :: Keyword(k, m[k], a, pa))
          == (map k | k in m && IsKept(k, m[k]) :: Keyword(k, m[k], b, pb));
      if "allOf" in m && m["allOf"].Arr? && |m["allOf"].items| == 1 {
        assert Refs(m["allOf"].items[0]) <= KeywordRefs("allOf", m["allOf"]) <= Refs(v);
        NormalizeWithin(m["allOf"].items[0], names, a, b, pa, pb);
      }
    }
  }

  lemma {:induction false} KeywordWithin(key: string, v: Json, names: set<string>, a: Components,
      b: Components, pa: set<string>, pb: set<string>)
    requires KeywordRefs(key, v) <= names && AgreeOn(names, a, b)
    requires forall n | n in names :: n in pa <==> n in pb
    ensures Keyword(key, v, a, pa) == Keyword(key, v, b, pb)
    decreases a.Keys - pa, v, 2
  {
    if key == "properties" && v.Obj? {
      forall p | p in v.members ensures Normalize(v.members[p], a, pa).out == Normalize(v.members[p], b, pb).out {
        assert Refs(v.members[p]) <= KeywordRefs(key, v);
        NormalizeWithin(v.members[p], names, a, b, pa, pb);
      }
    } else if key in {"items", "additionalProperties", "not"} {
      NormalizeWithin(v, names, a, b, pa, pb);
    } else if key in {"allOf", "anyOf", "oneOf"} && v.Arr? {
      forall i | 0 <= i < |v.items| ensures Normalize(v.items[i], a, pa).out == Normalize(v.items[i], b, pb).out {
        assert Refs(v.items[i]) <= KeywordRefs(key, v);
        NormalizeWithin(v.items[i], names, a, b, pa, pb);
      }
    }
  }

  /** k is a member the normal form keeps. */
  predicate Retains(v: Json, k: string)
    requires v.Obj?
  {
    k in v.members && IsKept(k, v.members[k])
  }

  /** An object whose kept keywords have the same forms elsewhere, and whose sole allOf member is cut
      alike, has the same form there. */
  lemma NormalizeAlike(v: Json, w: Json, a: Components, b: Components, pa: set<string>, pb: set<string>)
    requires v.Obj? && w.Obj? && !IsRef(v) && !IsRef(w)
    requires forall k :: Retains(v, k) <==> Retains(w, k)
    requires forall k | Retains(v, k) && Retains(w, k) ::
      Keyword(k, v.members[k], a, pa) == Keyword(k, w.members[k], b, pb)
    requires SoleCut(v, a, pa) <==> SoleCut(w, b, pb)
    ensures Normalize(v, a, pa) == Normalize(w, b, pb)
  {
    hide Normalize, Keyword, IsKept, SoleCut;
    var m, n := v.members, w.members;
    KeptAlike(v, w, a, b, pa, pb);
    var result := map k | k in m && IsKept(k, m[k]) :: Keyword(k, m[k], a, pa);
    UnfoldObject(v, result, a, pa);
    UnfoldObject(w, result, b, pb);
  }

  lemma KeptAlike(v: Json, w: Json, a: Components, b: Components, pa: set<string>, pb: set<string>)
    requires v.Obj? && w.Obj? && forall k :: Retains(v, k) <==> Retains(w, k)
    requires forall k | Retains(v, k) && Retains(w, k) ::
      Keyword(k, v.members[k], a, pa) == Keyword(k, w.members[k], b, pb)
    ensures var m, n := v.members, w.members;
      (map k | k in m && IsKept(k, m[k]) :: Keyword(k, m[k], a, pa))
      == (map k | k in n && IsKept(k, n[k]) :: Keyword(k, n[k], b, pb))
  {
    hide Keyword, IsKept;
    var m, n := v.members, w.members;
    forall k ensures k in m && IsKept(k, m[k]) <==> k in n && IsKept(k, n[k]) {
      assert Retains(v, k) <==> Retains(w, k);
    }
    forall k | k in m && IsKept(k, m[k]) ensures Keyword(k, m[k], a, pa) == Keyword(k, n[k], b, pb) {
      assert Retains(v, k);
    }
  }

  /** What the induction carries: below is closed under references in both component sets, c is
      outside it, and the path has entered neither. */
  ghost predicate Inlinable(schemas: Components, c: string, below: set<string>, path: set<string>) {
    && c in schemas && c !in below
    && Refs(schemas[c]) <= below
    && AgreeOn(below, schemas, InlineComponents(schemas, c))
    && path !! below && c !in path
  }

  lemma {:induction false} InlineNormalize(v: Json, schemas: Components, c: string, below: set<string>,
      path: set<string>)
    requires Inlinable(schemas, c, below, path)
    ensures Normalize(Inline(v, c, schemas[c]), InlineComponents(schemas, c), path) == Normalize(v, schemas, path)
    decreases schemas.Keys - path, v, 1
  {
    var body, inlined := schemas[c], InlineComponents(schemas, c);
    if IsRef(v) {
      var target := RefTarget(v.members["$ref"]);
      if target.Some? {
        var name := target.value;
        if name == c {
          NormalizeWithin(body, below, schemas, inlined, path + {c}, path);
          BodyIsNotCut(body, below, inlined, path);
        } else if name in below {
          NormalizeWithin(v, below, schemas, inlined, path, path);
        } else if name !in path && name in schemas {
          InlineNormalize(schemas[name], schemas, c, below, path + {name});
        }
      }
    } else if v.Obj? {
      hide Normalize, Keyword, IsKept, Inlinable, InlineComponents, InlineKeyword;
      var m, w := v.members, Inline(v, c, body);
      forall k | k in m
        ensures IsKept(k, w.members[k]) <==> IsKept(k, m[k])
        ensures Keyword(k, w.members[k], inlined, path) == Keyword(k, m[k], schemas, path)
      {
        InlineKeywordNormalize(k, m[k], schemas, c, below, path);
      }
      forall k ensures Retains(w, k) <==> Retains(v, k) {}
      if "allOf" in m {
        SoleMemberInlined(m["allOf"], c, body);
        if m["allOf"].Arr? && |m["allOf"].items| == 1 {
          InlineNormalize(m["allOf"].items[0], schemas, c, below, path);
        }
      }
      NormalizeAlike(w, v, inlined, schemas, path, path);
    }
  }

  lemma SoleMemberInlined(v: Json, c: string, body: Json)
    ensures var w := InlineKeyword("allOf", v, c, body);
      && w.Arr? == v.Arr? && (v.Arr? ==> |w.items| == |v.items|)
      && (v.Arr? && |v.items| == 1 ==> w.items[0] == Inline(v.items[0], c, body))
  {
  }

  lemma BodyIsNotCut(body: Json, below: set<string>, schemas: Components, path: set<string>)
    requires Refs(body) <= below && path !! below
    ensures !Normalize(body, schemas, path).cut
  {
    if IsRef(body) && RefTarget(body.members["$ref"]).Some? {
      assert RefTarget(body.members["$ref"]).value in Refs(body);
    }
  }

  lemma {:induction false} InlineKeywordNormalize(key: string, v: Json, schemas: Components, c: string,
      below: set<string>, path: set<string>)
    requires Inlinable(schemas, c, below, path)
    ensures IsKept(key, InlineKeyword(key, v, c, schemas[c])) <==> IsKept(key, v)
    ensures Keyword(key, InlineKeyword(key, v, c, schemas[c]), InlineComponents(schemas, c), path)
         == Keyword(key, v, schemas, path)
    decreases schemas.Keys - path, v, 2
  {
    var w := InlineKeyword(key, v, c, schemas[c]);
    if key == "properties" && v.Obj? {
      assert w.members.Keys == v.members.Keys;
      assert w == EMPTY <==> v == EMPTY by {
        if w == EMPTY { assert v.members == map[]; }
      }
      forall p | p in v.members
        ensures Normalize(w.members[p], InlineComponents(schemas, c), path) == Normalize(v.members[p], schemas, path)
      {
        InlineNormalize(v.members[p], schemas, c, below, path);
      }
    } else if key in {"items", "additionalProperties", "not"} {
      InlineNormalize(v, schemas, c, below, path);
    } else if key in {"allOf", "anyOf", "oneOf"} && v.Arr? {
      forall i | 0 <= i < |v.items|
        ensures Normalize(w.items[i], InlineComponents(schemas, c), path) == Normalize(v.items[i], schemas, path)
      {
        InlineNormalize(v.items[i], schemas, c, below, path);
      }
    }
  }

  /** Hoisting an acyclic type cannot change a normal form. */
  lemma InliningKeepsNormalForm(v: Json, schemas: Components, c: string)
    requires c in schemas && Acyclic(schemas, c)
    ensures Normalize(Inline(v, c, schemas[c]), InlineComponents(schemas, c), {}) == Normalize(v, schemas, {})
  {
    var below := ReachableFrom(schemas, c);
    ReachableIsClosed(schemas, c);
    forall n | n in below && n in schemas ensures Inline(schemas[n], c, schemas[c]) == schemas[n] {
      assert Refs(schemas[n]) <= below && c !in below;
      InlineAbsent(schemas[n], c, schemas[c]);
    }
    InlineNormalize(v, schemas, c, below, {});
  }
}
