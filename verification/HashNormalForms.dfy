/** What a normal form looks like, and that normalising one changes nothing. */
module HashNormalForms {
  import opened JsonTrees
  import opened Sorting
  import opened Hash
  import Utf16

  /** No reference and no annotation at any schema position; required sorted, mappings gone. */
  ghost predicate NormalForm(v: Json)
    decreases v, 0
  {
    v.Obj? ==>
      && "$ref" !in v.members
      && forall k | k in v.members :: IsKept(k, v.members[k]) && NormalKeyword(k, v.members[k])
  }

  ghost predicate NormalKeyword(key: string, v: Json)
    decreases v, 1
  {
    && (key == "properties" && v.Obj? ==> forall p | p in v.members :: NormalForm(v.members[p]))
    && (key in {"items", "additionalProperties", "not"} ==> NormalForm(v))
    && (key in {"allOf", "anyOf", "oneOf"} && v.Arr? ==> forall i | 0 <= i < |v.items| :: NormalForm(v.items[i]))
    && (key == "required" && IsStrings(v) ==> Sorted(v.items, StrLess))
    && (key == "discriminator" && v.Obj? ==> "mapping" !in v.members)
  }

  lemma StrLessIsOrder()
    ensures StrictWeakOrder(StrLess)
  {
    Utf16.LessIsOrder();
  }

  /** Whatever the document, cyclic or dangling, the result is a normal form. */
  lemma {:induction false} NormalizeGivesNormalForm(v: Json, schemas: Components, path: set<string>)
    ensures NormalForm(Normalize(v, schemas, path).out)
    decreases schemas.Keys - path, v, 1
  {
    if IsRef(v) {
      var target := RefTarget(v.members["$ref"]);
      if target.Some? && target.value !in path && target.value in schemas {
        NormalizeGivesNormalForm(schemas[target.value], schemas, path + {target.value});
      }
    } else if v.Obj? {
      forall k | k in v.members && IsKept(k, v.members[k])
        ensures IsKept(k, Keyword(k, v.members[k], schemas, path))
        ensures NormalKeyword(k, Keyword(k, v.members[k], schemas, path))
      {
        KeywordGivesNormalForm(k, v.members[k], schemas, path);
      }
    }
  }

  lemma {:induction false} KeywordGivesNormalForm(key: string, v: Json, schemas: Components, path: set<string>)
    requires IsKept(key, v)
    ensures IsKept(key, Keyword(key, v, schemas, path))
    ensures NormalKeyword(key, Keyword(key, v, schemas, path))
    decreases schemas.Keys - path, v, 2
  {
    if key == "properties" && v.Obj? {
      var r := Keyword(key, v, schemas, path);
      assert r.members.Keys == v.members.Keys;
      assert v.members != map[];
      forall p | p in v.members ensures NormalForm(r.members[p]) {
        NormalizeGivesNormalForm(v.members[p], schemas, path);
      }
    } else if key in {"items", "additionalProperties", "not"} {
      NormalizeGivesNormalForm(v, schemas, path);
    } else if key in {"allOf", "anyOf", "oneOf"} && v.Arr? {
      forall i | 0 <= i < |v.items| {
        NormalizeGivesNormalForm(v.items[i], schemas, path);
      }
    } else if key == "required" && IsStrings(v) {
      StrLessIsOrder();
      SortIsSorted(v.items, StrLess);
      assert |multiset(StableSort(v.items, StrLess))| == |multiset(v.items)|;
    }
  }

  /** A normal form is its own normal form, whatever components it is read against. */
  lemma {:induction false} NormalFormIsFixed(v: Json, schemas: Components, path: set<string>)
    requires NormalForm(v)
    ensures Normalize(v, schemas, path) == Normal(v, false)
    decreases v, 0
  {
    if v.Obj? {
      var m := v.members;
      var result := map k | k in m && IsKept(k, m[k]) :: Keyword(k, m[k], schemas, path);
      forall k | k in m ensures Keyword(k, m[k], schemas, path) == m[k] {
        NormalKeywordIsFixed(k, m[k], schemas, path);
      }
      assert result == m;
      if "allOf" in m && m["allOf"].Arr? && |m["allOf"].items| == 1 {
        assert NormalKeyword("allOf", m["allOf"]);
        NormalFormIsFixed(m["allOf"].items[0], schemas, path);
      }
    }
  }

  lemma {:induction false} NormalKeywordIsFixed(key: string, v: Json, schemas: Components, path: set<string>)
    requires NormalKeyword(key, v)
    ensures Keyword(key, v, schemas, path) == v
    decreases v, 1
  {
    if key == "properties" && v.Obj? {
      forall p | p in v.members ensures Normalize(v.members[p], schemas, path).out == v.members[p] {
        NormalFormIsFixed(v.members[p], schemas, path);
      }
    } else if key in {"items", "additionalProperties", "not"} {
      NormalFormIsFixed(v, schemas, path);
    } else if key in {"allOf", "anyOf", "oneOf"} && v.Arr? {
      forall i | 0 <= i < |v.items| ensures Normalize(v.items[i], schemas, path).out == v.items[i] {
        NormalFormIsFixed(v.items[i], schemas, path);
      }
    } else if key == "required" && IsStrings(v) {
      SortOfSorted(v.items, StrLess);
    } else if key == "discriminator" && v.Obj? {
      assert v.members - {"mapping"} == v.members;
    }
  }
}
