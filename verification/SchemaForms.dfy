/** The normal forms of the schemas the deriver emits, shape by shape. */
module SchemaForms {
  import opened JsonTrees
  import opened Options
  import opened SchemaDeriver
  import opened Hash

  lemma NormalizeRef(v: Json, k: string, schemas: Components, path: set<string>)
    requires IsRef(v) && RefTarget(v.members["$ref"]) == Some(k) && k in schemas
    ensures Normalize(v, schemas, path) ==
      if k in path then Normal(EMPTY, true) else Normal(Normalize(schemas[k], schemas, path + {k}).out, false)
  {
  }

  lemma KeptKeyword(k: string, v: Json)
    requires k in {"type", "nullable", "allOf", "properties"} && v != EMPTY && v != Arr([])
    ensures IsKept(k, v)
  {
    KeywordsAreKept();
  }

  lemma OneMemberKeyword(inner: Json, schemas: Components, path: set<string>)
    ensures Keyword("allOf", Arr([inner]), schemas, path) == Arr([Normalize(inner, schemas, path).out])
  {
    assert Arr([inner]).items == [inner];
  }

  lemma WrapperKept(inner: Json)
    ensures IsKept("allOf", Arr([inner])) && IsKept("type", Str("object")) && IsKept("nullable", Bool(true))
  {
    KeywordsAreKept();
  }

  lemma WrapperIsWrapper(inner: Json)
    ensures IsNullableWrapper(Wrapper(inner).members)
  {
  }

  lemma PlainKeywords(schemas: Components, path: set<string>)
    ensures Keyword("type", Str("object"), schemas, path) == Str("object")
    ensures Keyword("nullable", Bool(true), schemas, path) == Bool(true)
  {
  }

  /** The members a three-member object keeps, with the keys as variables. */
  lemma KeptThree(
      x: string, vx: Json, y: string, vy: Json, z: string, vz: Json, schemas: Components, path: set<string>)
    requires x != y && y != z && x != z
    requires IsKept(x, vx) && IsKept(y, vy) && IsKept(z, vz)
    ensures var m := map[x := vx, y := vy, z := vz];
      (map k | k in m && IsKept(k, m[k]) :: Keyword(k, m[k], schemas, path))
      == map[x := Keyword(x, vx, schemas, path), y := Keyword(y, vy, schemas, path), z := Keyword(z, vz, schemas, path)]
  {
    hide Keyword, IsKept;
  }

  lemma WrapperNormal(inner: Json, schemas: Components, path: set<string>)
    ensures Normalize(Wrapper(inner), schemas, path).out
      == if Normalize(inner, schemas, path).cut then EMPTY else Wrapper(Normalize(inner, schemas, path).out)
  {
    var form := Normalize(inner, schemas, path);
    WrapperKept(inner);
    OneMemberKeyword(inner, schemas, path);
    PlainKeywords(schemas, path);
    WrapperIsWrapper(form.out);
    hide Normalize, Keyword, IsKept, IsNullableWrapper;
    KeptThree("type", Str("object"), "nullable", Bool(true), "allOf", Arr([inner]), schemas, path);
    UnfoldObject(Wrapper(inner), Wrapper(form.out).members, schemas, path);
  }

  lemma KeptTwo(x: string, vx: Json, y: string, vy: Json, schemas: Components, path: set<string>)
    requires x != y && IsKept(x, vx) && IsKept(y, vy)
    ensures var m := map[x := vx, y := vy];
      (map k | k in m && IsKept(k, m[k]) :: Keyword(k, m[k], schemas, path))
      == map[x := Keyword(x, vx, schemas, path), y := Keyword(y, vy, schemas, path)]
  {
    hide Keyword, IsKept;
  }

  /** The members of a schema that is no reference, normalised. */
  function FormMembers(s: Json, schemas: Components, path: set<string>): map<string, Json>
    requires s.Obj?
  {
    var m := s.members; map k | k in m && IsKept(k, m[k]) :: Keyword(k, m[k], schemas, path)
  }

  lemma PlainNormal(s: Json, schemas: Components, path: set<string>)
    requires s.Obj? && "$ref" !in s.members && "allOf" !in s.members
    ensures Normalize(s, schemas, path) == Normal(Obj(FormMembers(s, schemas, path)), false)
  {
    UnfoldObject(s, FormMembers(s, schemas, path), schemas, path);
    hide Keyword, IsKept, Normalize;
  }

  /** Two such schemas with the same members, read alike, have one normal form. */
  lemma SameMembersSameForm(s: Json, schemas: Components, path: set<string>, r: Json, schemas': Components,
      path': set<string>)
    requires s.Obj? && "$ref" !in s.members && "allOf" !in s.members
    requires r.Obj? && r.members.Keys == s.members.Keys
    requires forall k | k in s.members :: IsKept(k, s.members[k]) == IsKept(k, r.members[k])
    requires forall k | k in s.members ::
      Keyword(k, s.members[k], schemas, path) == Keyword(k, r.members[k], schemas', path')
    ensures Normalize(s, schemas, path) == Normalize(r, schemas', path')
  {
    hide Keyword, IsKept, Normalize;
    assert forall k :: k in s.members <==> k in r.members;
    PlainNormal(s, schemas, path);
    PlainNormal(r, schemas', path');
    assert FormMembers(s, schemas, path) == FormMembers(r, schemas', path');
  }

  lemma NullableForm(s: Json, schemas: Components, path: set<string>)
    requires s.Obj? && "$ref" !in s.members && "allOf" !in s.members
    ensures Normalize(s, schemas, path).out.Obj?
    ensures Normalize(Nullable(s), schemas, path).out
      == Obj(Normalize(s, schemas, path).out.members["nullable" := Bool(true)])
  {
    KeptKeyword("nullable", Bool(true));
    PlainKeywords(schemas, path);
    hide Keyword, IsKept, Normalize, FormMembers;
    PlainNormal(s, schemas, path);
    PlainNormal(Nullable(s), schemas, path);
    MarkedMembers(s.members, schemas, path);
  }

  lemma MarkedMembers(m: map<string, Json>, schemas: Components, path: set<string>)
    requires IsKept("nullable", Bool(true)) && Keyword("nullable", Bool(true), schemas, path) == Bool(true)
    ensures FormMembers(Obj(m["nullable" := Bool(true)]), schemas, path)
      == FormMembers(Obj(m), schemas, path)["nullable" := Bool(true)]
  {
    hide Keyword, IsKept;
  }
}
