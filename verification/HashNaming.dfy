/** The normal form does not see component names, annotations, the order of required, or what
    stands beside a $ref: schemas that differ only in those have one normal form. */
module HashNaming {
  import opened JsonTrees
  import opened Options
  import opened Sorting
  import opened Hash
  import opened HashNormalForms
  import opened HashHoisting
  import Utf16

  /** v and w are the same schema once v's component names are read through rho. */
  ghost predicate Alike(v: Json, w: Json, rho: string -> string)
    decreases v, 0
  {
    if !v.Obj? || !w.Obj? then v == w
    else if IsRef(v) || IsRef(w) then
      IsRef(v) && IsRef(w) &&
      var (a, b) := (RefTarget(v.members["$ref"]), RefTarget(w.members["$ref"]));
      (a.None? && b.None?) || (a.Some? && b.Some? && b.value == rho(a.value))
    else
      && (forall k :: k in v.members && IsKept(k, v.members[k]) <==> k in w.members && IsKept(k, w.members[k]))
      && (forall k | k in v.members && IsKept(k, v.members[k]) :: AlikeKeyword(k, v.members[k], w.members[k], rho))
  }

  ghost predicate AlikeKeyword(key: string, v: Json, w: Json, rho: string -> string)
    decreases v, 1
  {
    if key == "properties" && v.Obj? && w.Obj? then
      v.members.Keys == w.members.Keys && forall p | p in v.members :: Alike(v.members[p], w.members[p], rho)
    else if key in {"items", "additionalProperties", "not"} then Alike(v, w, rho)
    else if key in {"allOf", "anyOf", "oneOf"} && v.Arr? && w.Arr? then
      |v.items| == |w.items| && forall i | 0 <= i < |v.items| :: Alike(v.items[i], w.items[i], rho)
    else if key == "required" && IsStrings(v) && IsStrings(w) then multiset(v.items) == multiset(w.items)
    else if key == "discriminator" && v.Obj? && w.Obj? then v.members - {"mapping"} == w.members - {"mapping"}
    else v == w
  }

  /** rho carries one set of components onto another, component by component, and never confuses a
      component's name with another name. */
  ghost predicate CarriesComponents(schemas: Components, schemas': Components, rho: string -> string) {
    && (forall a, b :: a in schemas && rho(a) == rho(b) ==> a == b)
    && (forall n :: n in schemas <==> rho(n) in schemas')
    && (forall n | n in schemas :: Alike(schemas[n], schemas'[rho(n)], rho))
  }

  lemma {:induction false} AlikeNormalize(
      v: Json, w: Json, rho: string -> string,
      schemas: Components, schemas': Components, path: set<string>, path': set<string>)
    requires Alike(v, w, rho) && CarriesComponents(schemas, schemas', rho)
    requires path <= schemas.Keys && forall n :: n in path <==> rho(n) in path'
    ensures Normalize(v, schemas, path) == Normalize(w, schemas', path')
    decreases schemas.Keys - path, v, 1
  {
    if v.Obj? && w.Obj? {
      if IsRef(v) {
        var a := RefTarget(v.members["$ref"]);
        if a.Some? && a.value !in path && a.value in schemas {
          AlikeNormalize(schemas[a.value], schemas'[rho(a.value)], rho, schemas, schemas',
            path + {a.value}, path' + {rho(a.value)});
        }
      } else {
        var m, n := v.members, w.members;
        AlikeMembers(v, w, rho);
        hide Keyword, AlikeKeyword, Normalize, IsKept, Alike, CarriesComponents;
        forall k | Retains(v, k) && Retains(w, k)
          ensures Keyword(k, m[k], schemas, path) == Keyword(k, n[k], schemas', path')
        {
          AlikeKeywordNormalize(k, m[k], n[k], rho, schemas, schemas', path, path');
        }
        if "allOf" in m && "allOf" in n {
          AllOfAlike(m["allOf"], n["allOf"], rho);
          if m["allOf"].Arr? && |m["allOf"].items| == 1 {
            AlikeNormalize(m["allOf"].items[0], n["allOf"].items[0], rho, schemas, schemas', path, path');
          }
        }
        NormalizeAlike(v, w, schemas, schemas', path, path');
      }
    }
  }

  lemma AlikeMembers(v: Json, w: Json, rho: string -> string)
    requires v.Obj? && w.Obj? && !IsRef(v) && Alike(v, w, rho)
    ensures !IsRef(w) && forall k :: Retains(v, k) <==> Retains(w, k)
    ensures forall k | Retains(v, k) && Retains(w, k) :: AlikeKeyword(k, v.members[k], w.members[k], rho)
    ensures "allOf" in v.members <==> "allOf" in w.members
    ensures "allOf" in v.members && "allOf" in w.members ==>
      AlikeKeyword("allOf", v.members["allOf"], w.members["allOf"], rho)
  {
    hide AlikeKeyword;
    KeywordsAreKept();
    assert Retains(v, "allOf") <==> Retains(w, "allOf");
  }

  lemma AllOfAlike(v: Json, w: Json, rho: string -> string)
    requires AlikeKeyword("allOf", v, w, rho)
    ensures v.Arr? <==> w.Arr?
    ensures v.Arr? ==> |v.items| == |w.items| && forall i | 0 <= i < |v.items| :: Alike(v.items[i], w.items[i], rho)
  {
    hide Alike;
  }

  lemma {:induction false} AlikeKeywordNormalize(
      key: string, v: Json, w: Json, rho: string -> string,
      schemas: Components, schemas': Components, path: set<string>, path': set<string>)
    requires AlikeKeyword(key, v, w, rho) && CarriesComponents(schemas, schemas', rho)
    requires path <= schemas.Keys && forall n :: n in path <==> rho(n) in path'
    ensures Keyword(key, v, schemas, path) == Keyword(key, w, schemas', path')
    decreases schemas.Keys - path, v, 2
  {
    hide Normalize, Alike, StableSort, StrLess;
    if key == "properties" && v.Obj? && w.Obj? {
      AlikePropertiesNormalize(v, w, rho, schemas, schemas', path, path');
    } else if key in {"items", "additionalProperties", "not"} {
      AlikeNormalize(v, w, rho, schemas, schemas', path, path');
    } else if key in {"allOf", "anyOf", "oneOf"} && v.Arr? && w.Arr? {
      AlikeItemsNormalize(v, w, rho, schemas, schemas', path, path');
    } else if key == "required" && IsStrings(v) && IsStrings(w) {
      RequiredForgetsOrder(v.items, w.items);
    }
  }

  lemma {:induction false} AlikePropertiesNormalize(
      v: Json, w: Json, rho: string -> string,
      schemas: Components, schemas': Components, path: set<string>, path': set<string>)
    requires v.Obj? && w.Obj? && AlikeKeyword("properties", v, w, rho) && CarriesComponents(schemas, schemas', rho)
    requires path <= schemas.Keys && forall n :: n in path <==> rho(n) in path'
    ensures (map p | p in v.members :: Normalize(v.members[p], schemas, path).out)
         == (map p | p in w.members :: Normalize(w.members[p], schemas', path').out)
    decreases schemas.Keys - path, v, 0
  {
    hide Normalize, Alike;
    forall p | p in v.members
      ensures Normalize(v.members[p], schemas, path).out == Normalize(w.members[p], schemas', path').out
    {
      AlikeNormalize(v.members[p], w.members[p], rho, schemas, schemas', path, path');
    }
  }

  lemma {:induction false} AlikeItemsNormalize(
      v: Json, w: Json, rho: string -> string,
      schemas: Components, schemas': Components, path: set<string>, path': set<string>)
    requires v.Arr? && w.Arr? && |v.items| == |w.items| && forall i | 0 <= i < |v.items| ::
      Alike(v.items[i], w.items[i], rho)
    requires CarriesComponents(schemas, schemas', rho)
    requires path <= schemas.Keys && forall n :: n in path <==> rho(n) in path'
    ensures seq(|v.items|, i requires 0 <= i < |v.items| => Normalize(v.items[i], schemas, path).out)
         == seq(|w.items|, i requires 0 <= i < |w.items| => Normalize(w.items[i], schemas', path').out)
    decreases schemas.Keys - path, v, 0
  {
    hide Normalize, Alike;
    forall i | 0 <= i < |v.items|
      ensures Normalize(v.items[i], schemas, path).out == Normalize(w.items[i], schemas', path').out
    {
      AlikeNormalize(v.items[i], w.items[i], rho, schemas, schemas', path, path');
    }
  }

  lemma RequiredForgetsOrder(a: seq<Json>, b: seq<Json>)
    requires IsStrings(Arr(a)) && multiset(a) == multiset(b)
    ensures StableSort(a, StrLess) == StableSort(b, StrLess)
  {
    StrLessIsOrder();
    forall x, y | x in a && y in a && x != y ensures StrLess(x, y) || StrLess(y, x) {
      Utf16.LessStrictTotal(x.s, y.s, y.s);
    }
    SortForgetsOrder(a, b, StrLess);
  }

  // ---------------------------------------------------------------- renaming

  /** Rewrites the references at every schema position. */
  function Rename(v: Json, rho: string -> string): Json
    decreases v, 0
  {
    if !v.Obj? then v
    else if IsRef(v) then
      match RefTarget(v.members["$ref"])
      case None => v
      case Some(name) => Obj(v.members["$ref" := Str(REF_PREFIX + rho(name))])
    else Obj(map k | k in v.members :: RenameKeyword(k, v.members[k], rho))
  }

  function RenameKeyword(key: string, v: Json, rho: string -> string): Json
    decreases v, 1
  {
    if key == "properties" && v.Obj? then Obj(map p | p in v.members :: Rename(v.members[p], rho))
    else if key in {"items", "additionalProperties", "not"} then Rename(v, rho)
    else if key in {"allOf", "anyOf", "oneOf"} && v.Arr? then
      Arr(seq(|v.items|, i requires 0 <= i < |v.items| => Rename(v.items[i], rho)))
    else v
  }

  lemma {:induction false} RenameIsAlike(v: Json, rho: string -> string)
    ensures Alike(v, Rename(v, rho), rho)
    decreases v, 0
  {
    var w := Rename(v, rho);
    if IsRef(v) {
      var target := RefTarget(v.members["$ref"]);
      if target.Some? {
        RefTargetOfName(rho(target.value));
      }
    } else if v.Obj? {
      forall k | k in v.members
        ensures IsKept(k, w.members[k]) <==> IsKept(k, v.members[k])
        ensures AlikeKeyword(k, v.members[k], w.members[k], rho)
      {
        RenameKeywordIsAlike(k, v.members[k], rho);
      }
    }
  }

  lemma {:induction false} RenameKeywordIsAlike(key: string, v: Json, rho: string -> string)
    ensures IsKept(key, RenameKeyword(key, v, rho)) <==> IsKept(key, v)
    ensures AlikeKeyword(key, v, RenameKeyword(key, v, rho), rho)
    decreases v, 1
  {
    var w := RenameKeyword(key, v, rho);
    if key == "properties" && v.Obj? {
      assert w.members.Keys == v.members.Keys;
      forall p | p in v.members ensures Alike(v.members[p], w.members[p], rho) {
        RenameIsAlike(v.members[p], rho);
      }
      assert w == EMPTY <==> v == EMPTY by {
        if w == EMPTY { assert v.members == map[]; }
      }
    } else if key in {"items", "additionalProperties", "not"} {
      RenameIsAlike(v, rho);
    } else if key in {"allOf", "anyOf", "oneOf"} && v.Arr? {
      forall i | 0 <= i < |v.items| ensures Alike(v.items[i], w.items[i], rho) {
        RenameIsAlike(v.items[i], rho);
      }
    }
  }

  lemma RefTargetOfName(name: string)
    ensures RefTarget(Str(REF_PREFIX + name)) == Some(name)
  {
    assert (REF_PREFIX + name)[|REF_PREFIX|..] == name;
  }

  /** Renaming the components of a document, references included. */
  ghost predicate RenamesComponents(schemas: Components, renamed: Components, rho: string -> string) {
    && (forall a, b :: a in schemas && rho(a) == rho(b) ==> a == b)
    && (forall n :: n in schemas <==> rho(n) in renamed)
    && (forall n | n in schemas :: renamed[rho(n)] == Rename(schemas[n], rho))
  }

  /** Hoisted names cannot change a normal form. */
  lemma RenamingKeepsNormalForm(v: Json, schemas: Components, renamed: Components, rho: string -> string)
    requires RenamesComponents(schemas, renamed, rho)
    ensures Normalize(Rename(v, rho), renamed, {}) == Normalize(v, schemas, {})
  {
    RenameIsAlike(v, rho);
    forall n | n in schemas ensures Alike(schemas[n], renamed[rho(n)], rho) {
      RenameIsAlike(schemas[n], rho);
    }
    AlikeNormalize(v, Rename(v, rho), rho, schemas, renamed, {}, {});
  }
}
