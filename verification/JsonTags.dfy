/** What a field's declaration and its json tag say of its property, read off the text of the tag. */
module JsonTags {
  import opened Options
  import opened Strings
  import opened GoTypes
  import opened JsonFields

  // ---------------------------------------------------------------- options in a tag

  /** The text stands at position i, between two commas, or a comma and an end. */
  predicate StandsAt(s: string, i: int, option: string) {
    && 0 <= i <= i + |option| <= |s| && s[i..i + |option|] == option
    && (i == 0 || s[i - 1] == ',') && (i + |option| == |s| || s[i + |option|] == ',')
  }

  ghost predicate StandsIn(s: string, option: string) { exists i :: StandsAt(s, i, option) }

  lemma {:induction false} SplitHolds(s: string, option: string)
    requires ',' !in option
    ensures option in Split(s, ',') <==> StandsIn(s, option)
    decreases |s|
  {
    var c := Cut(s, ',');
    CutMeaning(s, ',');
    if !c.found {
      SplitNone(s, ',');
      OnlyStands(s, option);
    } else {
      SplitFirst(c.before, c.after, ',');
      SplitHolds(c.after, option);
      FirstOrRest(c.before, c.after, option);
    }
  }

  /** Without a comma a text holds itself only. */
  lemma OnlyStands(s: string, option: string)
    requires ',' !in s
    ensures StandsIn(s, option) <==> option == s
  {
    if option == s {
      assert s[0..0 + |s|] == s;
      assert StandsAt(s, 0, option);
    }
    forall i | StandsAt(s, i, option) ensures option == s {
      assert i == 0 && |option| == |s|;
    }
  }

  lemma FirstOrRest(x: string, y: string, option: string)
    requires ',' !in x && ',' !in option
    ensures StandsIn(x + [','] + y, option) <==> option == x || StandsIn(y, option)
  {
    var s := x + [','] + y;
    forall i
      ensures StandsAt(s, i, option) <==> (i == 0 && option == x) || (i > 0 && StandsAt(y, i - |x| - 1, option))
    {
      if i == 0 {
        StandsFirst(x, y, option);
      } else {
        StandsLater(x, y, option, i);
      }
    }
    if option == x {
      assert StandsAt(s, 0, option);
    }
    if i :| StandsAt(y, i, option) {
      assert StandsAt(s, i + |x| + 1, option);
    }
  }

  lemma StandsFirst(x: string, y: string, option: string)
    requires ',' !in x && ',' !in option
    ensures StandsAt(x + [','] + y, 0, option) <==> option == x
  {
    var s := x + [','] + y;
    assert s[|x|] == ',' && s[..|x|] == x;
    assert |option| < |x| ==> s[|option|] == x[|option|];
    assert |option| <= |s| ==> forall j | 0 <= j < |option| :: s[..|option|][j] == s[j];
  }

  lemma StandsLater(x: string, y: string, option: string, i: int)
    requires ',' !in x && i != 0
    ensures StandsAt(x + [','] + y, i, option) <==> StandsAt(y, i - |x| - 1, option)
  {
    var s, k := x + [','] + y, i - |x| - 1;
    assert 0 < i <= |x| ==> s[i - 1] == x[i - 1];
    assert k >= 0 && k + |option| <= |y| ==> s[i..i + |option|] == y[k..k + |option|];
    assert k > 0 && k <= |y| ==> s[i - 1] == y[k - 1];
    assert k >= 0 && k + |option| < |y| ==> s[i + |option|] == y[k + |option|];
  }

  /** The tag says the option: it stands behind a comma, up to the next one or the end. */
  ghost predicate Says(tag: string, option: string) { exists i :: i > 0 && StandsAt(tag, i, option) }

  /** The tag gives the name: it is the text before the first comma. */
  predicate Names(tag: string, name: string) {
    ',' !in name && (tag == name || name + [','] <= tag)
  }

  lemma OptionIsSaid(d: Decl, option: string)
    requires ',' !in option && option != ""
    ensures HasOption(d, option) <==> Says(d.tag, option)
  {
    var c := Cut(d.tag, ',');
    CutMeaning(d.tag, ',');
    SplitHolds(c.after, option);
    if c.found {
      SaidAfter(c.before, c.after, option);
    } else {
      SplitNone("", ',');
      assert forall i | StandsAt(d.tag, i, option) :: i == 0;
    }
  }

  lemma SaidAfter(x: string, y: string, option: string)
    requires ',' !in x
    ensures Says(x + [','] + y, option) <==> StandsIn(y, option)
  {
    var s := x + [','] + y;
    forall i | i > 0 ensures StandsAt(s, i, option) <==> StandsAt(y, i - |x| - 1, option) {
      StandsLater(x, y, option, i);
    }
    hide StandsAt;
    if i :| StandsAt(y, i, option) {
      StandsLater(x, y, option, i + |x| + 1);
      StartsInside(y, i, option);
    }
  }

  lemma StartsInside(s: string, i: int, option: string)
    requires StandsAt(s, i, option)
    ensures i >= 0
  {
  }

  lemma TagNames(d: Decl)
    ensures Names(d.tag, TagName(d)) && forall n | Names(d.tag, n) :: n == TagName(d)
  {
    CutMeaning(d.tag, ',');
    forall n | Names(d.tag, n) ensures n == TagName(d) {
      if d.tag == n {
        CutNone(d.tag, ',');
      } else {
        assert d.tag == n + [','] + d.tag[|n| + 1..];
        CutAt(n, ',', d.tag[|n| + 1..]);
      }
    }
  }

  // ---------------------------------------------------------------- fields

  /** A string, a bool, a number, or a pointer to one. */
  predicate IsScalar(shapes: Shapes, t: TypeId)
    requires t < |shapes|
  {
    match shapes[t]
    case ScalarShape => true
    case PointerShape(e) => e < |shapes| && shapes[e] == ScalarShape
    case _ => false
  }

  /** A field's property goes by the name in its tag, else by its own; it is written as a string when the tag says
      string and its type is a scalar or points at one; it may be omitted below an embedded pointer, when the tag says
      omitzero, or says omitempty and the type is neither a struct nor an array with elements. */
  lemma FieldFollowsTag(shapes: Shapes, d: Decl, depth: nat, optional: bool, name: string)
    requires d.typ < |shapes| && Names(d.tag, name)
    ensures var c, shape := CandidateOf(shapes, d, depth, optional), shapes[d.typ];
      && c.typ == d.typ && c.depth == depth && (c.tagged <==> name != "")
      && c.name == (if name == "" then d.goName else name)
      && (c.quoted <==> Says(d.tag, "string") && IsScalar(shapes, d.typ))
      && (c.omittable <==>
            || optional || Says(d.tag, "omitzero")
            || (Says(d.tag, "omitempty") && match shape
                case StructShape(_) => false
                case ArrayShape(length) => length == 0
                case _ => true))
  {
    TagNames(d);
    OptionIsSaid(d, "string");
    OptionIsSaid(d, "omitzero");
    OptionIsSaid(d, "omitempty");
    hide HasOption, Says, TagName;
  }

  /** A field is flattened when it embeds a struct, or a pointer to one, without a name in its tag; it is a property
      when it is exported, otherwise; and it is skipped when its tag is "-" or it is neither. */
  lemma FieldFollowsDeclaration(shapes: Shapes, d: Decl, name: string)
    requires d.typ < |shapes| && Names(d.tag, name)
    ensures var role := RoleOf(shapes, d);
      var direct := IsStruct(shapes, d.typ);
      var pointed := shapes[d.typ].PointerShape? && IsStruct(shapes, shapes[d.typ].elem);
      var flattened := d.tag != "-" && d.anonymous && name == "" && (direct || pointed);
      && (flattened ==> role == if direct then Embedded(d.typ, false) else Embedded(shapes[d.typ].elem, true))
      && (role == Property <==> d.tag != "-" && d.exported && !flattened)
      && (role == Skipped <==> d.tag == "-" || (!d.exported && !flattened))
  {
    TagNames(d);
  }
}
