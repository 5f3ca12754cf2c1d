/** The JSON properties of a struct (contract/schema.go, jsonFields): candidates collected through
    embedded structs, and the one that wins each name. */
module JsonFields {
  import opened Options
  import opened Strings
  import opened GoTypes

  /** A Go field; tag is its json tag. */
  datatype Decl = Decl(goName: string, typ: TypeId, anonymous: bool, exported: bool, tag: string)

  datatype Shape =
    | StructShape(fields: seq<Decl>)
    | PointerShape(elem: TypeId)
    | ArrayShape(length: nat)
    | ScalarShape  // string, bool or number
    | OtherShape

  type Shapes = seq<Shape>

  predicate InRange(shapes: Shapes, decls: seq<Decl>) { forall i | 0 <= i < |decls| :: decls[i].typ < |shapes| }

  ghost predicate WellFormed(shapes: Shapes) {
    forall t | 0 <= t < |shapes| ::
      (shapes[t].PointerShape? ==> shapes[t].elem < |shapes|)
      && (shapes[t].StructShape? ==> InRange(shapes, shapes[t].fields))
  }

  predicate IsStruct(shapes: Shapes, t: TypeId) { t < |shapes| && shapes[t].StructShape? }

  datatype Candidate = Candidate(
    name: string, typ: TypeId, depth: nat, tagged: bool, quoted: bool, omittable: bool)

  function TagName(d: Decl): string { Cut(d.tag, ',').before }

  /** The name a field's property goes by. */
  function PropertyName(d: Decl): string { if TagName(d) == "" then d.goName else TagName(d) }

  predicate HasOption(d: Decl, option: string) { option in Split(Cut(d.tag, ',').after, ',') }

  /** quotable. */
  predicate Quotable(shapes: Shapes, t: TypeId)
    requires t < |shapes|
  {
    if shapes[t].PointerShape? then shapes[t].elem < |shapes| && shapes[shapes[t].elem].ScalarShape?
    else shapes[t].ScalarShape?
  }

  /** What a field is to the struct's JSON form. */
  datatype Role = Skipped | Embedded(target: TypeId, throughPointer: bool) | Property

  function RoleOf(shapes: Shapes, d: Decl): (r: Role)
    ensures r.Embedded? ==> IsStruct(shapes, r.target)
  {
    if d.tag == "-" || d.typ >= |shapes| then Skipped
    else
      var through := shapes[d.typ].PointerShape?;
      var target := if through then shapes[d.typ].elem else d.typ;
      if d.anonymous && TagName(d) == "" && IsStruct(shapes, target) then Embedded(target, through)
      else if d.exported then Property else Skipped
  }

  /** A field's own candidate. omitempty never omits a struct, nor an array with elements. */
  function CandidateOf(shapes: Shapes, d: Decl, depth: nat, optional: bool): Candidate
    requires d.typ < |shapes|
  {
    var shape := shapes[d.typ];
    var emptiable := !shape.StructShape? && !(shape.ArrayShape? && shape.length > 0);
    Candidate(
      PropertyName(d), d.typ, depth, TagName(d) != "",
      HasOption(d, "string") && Quotable(shapes, d.typ),
      optional || HasOption(d, "omitzero") || (HasOption(d, "omitempty") && emptiable))
  }

  // ---------------------------------------------------------------- collecting candidates

  function Left(shapes: Shapes, seen: set<TypeId>): set<TypeId> { set t | 0 <= t < |shapes| && t !in seen }

  /** collectFields: what it appends. */
  function Collect(shapes: Shapes, t: TypeId, depth: nat, optional: bool, seen: set<TypeId>): seq<Candidate>
    requires IsStruct(shapes, t)
    decreases Left(shapes, seen), 0, 0
  {
    if t in seen then []
    else
      assert t in Left(shapes, seen) - Left(shapes, seen + {t});
      CollectDecls(shapes, shapes[t].fields, depth, optional, seen + {t})
  }

  function CollectDecls(shapes: Shapes, decls: seq<Decl>, depth: nat, optional: bool, seen: set<TypeId>): seq<Candidate>
    decreases Left(shapes, seen), 1, |decls|
  {
    if decls == [] then []
    else
      var n := |decls| - 1;
      CollectDecls(shapes, decls[..n], depth, optional, seen) + CollectDecl(shapes, decls[n], depth, optional, seen)
  }

  function CollectDecl(shapes: Shapes, d: Decl, depth: nat, optional: bool, seen: set<TypeId>): seq<Candidate>
    decreases Left(shapes, seen), 0, 1
  {
    match RoleOf(shapes, d)
    case Skipped => []
    case Embedded(target, through) => Collect(shapes, target, depth + 1, optional || through, seen)
    case Property => [CandidateOf(shapes, d, depth, optional)]
  }

  /** The ",option" loop over a tag. */
  method ParseOptions(opts: string) returns (omitempty: bool, omitzero: bool, asString: bool)
    ensures var options := Split(opts, ',');
      && (omitempty <==> "omitempty" in options) && (omitzero <==> "omitzero" in options)
      && (asString <==> "string" in options)
  {
    var options := Split(opts, ',');
    omitempty, omitzero, asString := false, false, false;
    for i := 0 to |options|
      invariant omitempty <==> "omitempty" in options[..i]
      invariant omitzero <==> "omitzero" in options[..i]
      invariant asString <==> "string" in options[..i]
    {
      var opt := options[i];
      assert options[..i + 1] == options[..i] + [opt];
      if opt == "omitempty" {
        omitempty := true;
      } else if opt == "omitzero" {
        omitzero := true;
      } else if opt == "string" {
        asString := true;
      }
    }
    assert options[..|options|] == options;
  }

  lemma CollectStep(shapes: Shapes, decls: seq<Decl>, i: nat, depth: nat, optional: bool, seen: set<TypeId>)
    requires i < |decls|
    ensures CollectDecls(shapes, decls[..i + 1], depth, optional, seen)
         == CollectDecls(shapes, decls[..i], depth, optional, seen) + CollectDecl(shapes, decls[i], depth, optional,
           seen)
  {
    assert decls[..i + 1][..i] == decls[..i];
  }

  method FieldCandidate(shapes: Shapes, d: Decl, depth: nat, optional: bool) returns (f: Candidate)
    requires d.typ < |shapes|
    ensures f == CandidateOf(shapes, d, depth, optional)
  {
    var omitempty, omitzero, asString := ParseOptions(Cut(d.tag, ',').after);
    var shape := shapes[d.typ];
    var emptiable := !shape.StructShape? && !(shape.ArrayShape? && shape.length > 0);
    f := Candidate(
      PropertyName(d), d.typ, depth, TagName(d) != "",
      asString && Quotable(shapes, d.typ), optional || omitzero || (omitempty && emptiable));
  }

  method CollectFields(shapes: Shapes, t: TypeId, depth: nat, optional: bool, seen: set<TypeId>, out: seq<Candidate>)
    returns (all: seq<Candidate>)
    requires WellFormed(shapes) && IsStruct(shapes, t)
    ensures all == out + Collect(shapes, t, depth, optional, seen)
    decreases Left(shapes, seen)
  {
    hide CollectDecls, Cut, CandidateOf;
    all := out;
    if t in seen {
      return;
    }
    var now := seen + {t};
    assert t in Left(shapes, seen) && t !in Left(shapes, now);
    var decls := shapes[t].fields;
    NothingCollected(shapes, depth, optional, now);
    for i := 0 to |decls|
      invariant all == out + CollectDecls(shapes, decls[..i], depth, optional, now)
    {
      var d := decls[i];
      CollectStep(shapes, decls, i, depth, optional, now);
      if d.tag == "-" {
        continue;
      }
      if d.anonymous {
        var embedded, throughPointer := d.typ, false;
        if shapes[embedded].PointerShape? {
          embedded, throughPointer := shapes[embedded].elem, true;
        }
        if !d.exported && !shapes[embedded].StructShape? {
          continue;
        }
        if TagName(d) == "" && shapes[embedded].StructShape? {
          all := CollectFields(shapes, embedded, depth + 1, optional || throughPointer, now, all);
          continue;
        }
      }
      if !d.exported {
        continue;
      }
      var f := FieldCandidate(shapes, d, depth, optional);
      all := all + [f];
    }
    assert decls[..|decls|] == decls;
  }

  lemma NothingCollected(shapes: Shapes, depth: nat, optional: bool, seen: set<TypeId>)
    ensures CollectDecls(shapes, [], depth, optional, seen) == []
  {
  }

  // ---------------------------------------------------------------- choosing among candidates

  /** What a loop over candidates selects by. */
  datatype Test = IsNamed(name: string) | IsAt(depth: nat) | IsTagged

  predicate Passes(c: Candidate, test: Test) {
    match test
    case IsNamed(name) => c.name == name
    case IsAt(depth) => c.depth == depth
    case IsTagged => c.tagged
  }

  function Filter(test: Test, s: seq<Candidate>): (r: seq<Candidate>)
    ensures forall c :: c in r <==> c in s && Passes(c, test)
  {
    if s == [] then []
    else Filter(test, s[..|s| - 1]) + if Passes(s[|s| - 1], test) then [s[|s| - 1]] else []
  }

  function MinDepth(fields: seq<Candidate>): (m: nat)
    requires fields != []
    ensures forall f | f in fields :: m <= f.depth
    ensures exists f :: f in fields && f.depth == m
  {
    if |fields| == 1 then fields[0].depth
    else
      var n := |fields| - 1;
      var m := MinDepth(fields[..n]);
      assert forall f | f in fields :: f in fields[..n] || f == fields[n];
      var least := if fields[n].depth < m then fields[n].depth else m;
      least
  }

  function Dominant(fields: seq<Candidate>): Option<Candidate>
    requires fields != []
  {
    var shallow := Filter(IsAt(MinDepth(fields)), fields);
    var tagged := Filter(IsTagged, shallow);
    if |shallow| == 1 then Some(shallow[0]) else if |tagged| == 1 then Some(tagged[0]) else None
  }

  function Named(all: seq<Candidate>, name: string): seq<Candidate> { Filter(IsNamed(name), all) }

  /** The names of the candidates, by first appearance. */
  function Names(all: seq<Candidate>): (names: seq<string>)
    ensures forall n :: n in names <==> exists c :: c in all && c.name == n
    ensures forall i, j | 0 <= i < j < |names| :: names[i] != names[j]
  {
    if all == [] then []
    else
      var before, last := Names(all[..|all| - 1]), all[|all| - 1];
      assert forall c | c in all :: c in all[..|all| - 1] || c == last;
      if last.name in before then before else before + [last.name]
  }

  function Winners(all: seq<Candidate>, names: seq<string>): seq<Candidate> {
    if names == [] then []
    else
      var before, fields := Winners(all, names[..|names| - 1]), Named(all, names[|names| - 1]);
      if fields != [] && Dominant(fields).Some? then before + [Dominant(fields).value] else before
  }

  function FieldsOf(shapes: Shapes, t: TypeId): seq<Candidate>
    requires IsStruct(shapes, t)
  {
    var all := Collect(shapes, t, 0, false, {});
    Winners(all, Names(all))
  }

  lemma FilterStep(test: Test, s: seq<Candidate>, i: nat)
    requires i < |s|
    ensures Filter(test, s[..i + 1]) == Filter(test, s[..i]) + if Passes(s[i], test) then [s[i]] else []
  {
    assert s[..i + 1][..i] == s[..i];
  }

  lemma MinDepthStep(s: seq<Candidate>, i: nat)
    requires 0 < i < |s|
    ensures MinDepth(s[..i + 1]) == if s[i].depth < MinDepth(s[..i]) then s[i].depth else MinDepth(s[..i])
  {
    assert s[..i + 1][..i] == s[..i];
  }

  method ChooseDominant(fields: seq<Candidate>) returns (f: Option<Candidate>)
    requires fields != []
    ensures f == Dominant(fields)
  {
    hide Filter, MinDepth;
    var minDepth := fields[0].depth;
    assert MinDepth(fields[..1]) == minDepth by { OneDepth(fields[..1]); }
    for i := 1 to |fields|
      invariant minDepth == MinDepth(fields[..i])
    {
      MinDepthStep(fields, i);
      if fields[i].depth < minDepth {
        minDepth := fields[i].depth;
      }
    }
    assert fields[..|fields|] == fields;
    var shallow: seq<Candidate> := [];
    NothingPasses(IsAt(minDepth));
    for i := 0 to |fields|
      invariant shallow == Filter(IsAt(minDepth), fields[..i])
    {
      FilterStep(IsAt(minDepth), fields, i);
      if fields[i].depth == minDepth {
        shallow := shallow + [fields[i]];
      }
    }
    if |shallow| == 1 {
      return Some(shallow[0]);
    }
    var tagged: seq<Candidate> := [];
    NothingPasses(IsTagged);
    for i := 0 to |shallow|
      invariant tagged == Filter(IsTagged, shallow[..i])
    {
      FilterStep(IsTagged, shallow, i);
      if shallow[i].tagged {
        tagged := tagged + [shallow[i]];
      }
    }
    assert shallow[..|shallow|] == shallow;
    if |tagged| == 1 {
      return Some(tagged[0]);
    }
    f := None;
  }

  lemma OneDepth(s: seq<Candidate>)
    requires |s| == 1
    ensures MinDepth(s) == s[0].depth
  {
  }

  lemma NothingPasses(test: Test)
    ensures Filter(test, []) == []
  {
  }

  lemma NamedStep(all: seq<Candidate>, i: nat, name: string)
    requires i < |all|
    ensures Named(all[..i + 1], name)
         == if all[i].name == name then Named(all[..i], name) + [all[i]] else Named(all[..i], name)
  {
    assert all[..i + 1][..i] == all[..i];
  }

  lemma NamesStep(all: seq<Candidate>, i: nat)
    requires i < |all|
    ensures var before := Names(all[..i]);
      Names(all[..i + 1]) == if all[i].name in before then before else before + [all[i].name]
  {
    assert all[..i + 1][..i] == all[..i];
  }

  lemma NamedIfNames(all: seq<Candidate>, name: string)
    ensures Named(all, name) != [] <==> name in Names(all)
  {
    hide Names, Filter;
    if |Named(all, name)| > 0 {
      assert Named(all, name)[0] in Named(all, name);
    }
    if name in Names(all) {
      var c :| c in all && c.name == name;
      assert c in Named(all, name);
    }
  }

  method GroupByName(all: seq<Candidate>) returns (names: seq<string>, byName: map<string, seq<Candidate>>)
    ensures names == Names(all) && byName == map n | n in names :: Named(all, n)
  {
    hide Named, Names;
    byName, names := map[], [];
    assert Names(all[..0]) == [] by { NoNames(); }
    for i := 0 to |all|
      invariant names == Names(all[..i])
      invariant byName == map n | n in names :: Named(all[..i], n)
    {
      var f := all[i];
      GroupStep(all, i, names, byName);
      if f.name !in byName {
        assert [] + [f] == [f];
        names := names + [f.name];
        byName := byName[f.name := [f]];
      } else {
        byName := byName[f.name := byName[f.name] + [f]];
      }
    }
    assert all[..|all|] == all;
  }

  lemma GroupStep(all: seq<Candidate>, i: nat, names: seq<string>, byName: map<string, seq<Candidate>>)
    requires i < |all| && names == Names(all[..i]) && byName == map n | n in names :: Named(all[..i], n)
    ensures var f := all[i];
      var names' := if f.name in names then names else names + [f.name];
      var before := if f.name in names then byName[f.name] else [];
      && names' == Names(all[..i + 1])
      && byName[f.name := before + [f]] == map n | n in names' :: Named(all[..i + 1], n)
  {
    hide Named, Names;
    var f := all[i];
    NamesStep(all, i);
    NamedStep(all, i, f.name);
    NamedIfNames(all[..i], f.name);
    forall n | n in Names(all[..i + 1])
      ensures Named(all[..i + 1], n) == if n == f.name then (if n in names then byName[n] else []) + [f] else byName[n]
    {
      NamedStep(all, i, n);
    }
  }

  lemma NoNames()
    ensures Names([]) == []
  {
  }

  lemma WinnersStep(all: seq<Candidate>, names: seq<string>, i: nat)
    requires i < |names| && Named(all, names[i]) != []
    ensures Winners(all, names[..i + 1]) == Winners(all, names[..i]) +
      match Dominant(Named(all, names[i])) case Some(f) => [f] case None => []
  {
    hide Named, Dominant;
    assert names[..i + 1][..i] == names[..i];
  }

  method ResolveFields(shapes: Shapes, t: TypeId) returns (out: seq<Candidate>)
    requires WellFormed(shapes) && IsStruct(shapes, t)
    ensures out == FieldsOf(shapes, t)
  {
    hide Collect, Dominant, Named, Winners, Names;
    var all := CollectFields(shapes, t, 0, false, {}, []);
    assert all == Collect(shapes, t, 0, false, {});
    var names, byName := GroupByName(all);
    out := [];
    NoWinners(all);
    for i := 0 to |names|
      invariant out == Winners(all, names[..i])
    {
      assert names[i] in names;
      NamedIfNames(all, names[i]);
      WinnersStep(all, names, i);
      var f := ChooseDominant(byName[names[i]]);
      if f.Some? {
        out := out + [f.value];
      }
    }
    assert names[..|names|] == names;
  }

  lemma NoWinners(all: seq<Candidate>)
    ensures Winners(all, []) == []
  {
  }
}
