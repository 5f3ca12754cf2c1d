/** jsonFields against Go's embedding rule, stated over the whole tree of embedded structs: however
    deep, and without any memory of types already met. */
module JsonFieldLaws {
  import opened Options
  import opened GoTypes
  import opened JsonFields

  // ---------------------------------------------------------------- the rule among candidates

  /** Candidate i wins its name: every other candidate of the name is deeper, or as deep and untagged
      where i is tagged. */
  ghost predicate Dominates(all: seq<Candidate>, i: int) {
    0 <= i < |all| && forall j | 0 <= j < |all| && j != i && all[j].name == all[i].name ::
      all[j].depth > all[i].depth || (all[j].depth == all[i].depth && all[i].tagged && !all[j].tagged)
  }

  predicate PassesAll(c: Candidate, tests: seq<Test>) {
    tests == [] || (PassesAll(c, tests[..|tests| - 1]) && Passes(c, tests[|tests| - 1]))
  }

  function FilterAll(tests: seq<Test>, s: seq<Candidate>): seq<Candidate> {
    if tests == [] then s else Filter(tests[|tests| - 1], FilterAll(tests[..|tests| - 1], s))
  }

  /** Position i alone passes the tests. */
  ghost predicate Only(tests: seq<Test>, s: seq<Candidate>, i: int) {
    0 <= i < |s| && PassesAll(s[i], tests) && forall j | 0 <= j < |s| && j != i :: !PassesAll(s[j], tests)
  }

  lemma FilterOneMore(test: Test, s: seq<Candidate>, c: Candidate)
    ensures Filter(test, s + [c]) == if Passes(c, test) then Filter(test, s) + [c] else Filter(test, s)
  {
    assert (s + [c])[..|s|] == s;
  }

  lemma {:induction false} FilterAllOneMore(tests: seq<Test>, s: seq<Candidate>, c: Candidate)
    ensures FilterAll(tests, s + [c]) == if PassesAll(c, tests) then FilterAll(tests, s) + [c] else FilterAll(tests, s)
  {
    hide Filter;
    if tests != [] {
      var before := tests[..|tests| - 1];
      FilterAllOneMore(before, s, c);
      FilterOneMore(tests[|tests| - 1], FilterAll(before, s), c);
    }
  }

  lemma {:induction false} NonePass(tests: seq<Test>, s: seq<Candidate>)
    ensures FilterAll(tests, s) == [] <==> forall i | 0 <= i < |s| :: !PassesAll(s[i], tests)
    decreases |s|
  {
    hide PassesAll;
    if s == [] {
      FilterAllEmpty(tests);
    } else {
      var n := |s| - 1;
      hide FilterAll;
      NonePass(tests, s[..n]);
      FilterAllOneMore(tests, s[..n], s[n]);
      assert s[..n] + [s[n]] == s;
    }
  }

  lemma {:induction false} FilterAllEmpty(tests: seq<Test>)
    ensures FilterAll(tests, []) == []
  {
    if tests != [] {
      FilterAllEmpty(tests[..|tests| - 1]);
    }
  }

  lemma {:induction false} OnlyIsFiltered(tests: seq<Test>, s: seq<Candidate>, i: int)
    requires Only(tests, s, i)
    ensures FilterAll(tests, s) == [s[i]]
    decreases |s|
  {
    hide FilterAll, PassesAll;
    var n := |s| - 1;
    NonePass(tests, s[..n]);
    FilterAllOneMore(tests, s[..n], s[n]);
    assert s[..n] + [s[n]] == s;
    if i < n {
      OnlyIsFiltered(tests, s[..n], i);
    }
  }

  lemma {:induction false} FilteredIsOnly(tests: seq<Test>, s: seq<Candidate>) returns (i: int)
    requires |FilterAll(tests, s)| == 1
    ensures Only(tests, s, i)
    decreases |s|
  {
    hide FilterAll, PassesAll;
    if s == [] {
      FilterAllEmpty(tests);
    }
    var n := |s| - 1;
    NonePass(tests, s[..n]);
    FilterAllOneMore(tests, s[..n], s[n]);
    assert s[..n] + [s[n]] == s;
    if PassesAll(s[n], tests) {
      i := n;
    } else {
      i := FilteredIsOnly(tests, s[..n]);
    }
  }

  lemma DominantDominates(all: seq<Candidate>, name: string, f: Candidate) returns (i: int)
    requires Named(all, name) != [] && Dominant(Named(all, name)) == Some(f)
    ensures Dominates(all, i) && all[i].name == name && all[i] == f
  {
    var m := MinDepth(Named(all, name));
    var shallow, tagged := [IsNamed(name), IsAt(m)], [IsNamed(name), IsAt(m), IsTagged];
    NamedTests(all, name, m);
    DepthIsLeast(all, name);
    TestMeanings(name, m);
    hide Filter, PassesAll, FilterAll, MinDepth, Named, Only, Dominates;
    var tests := if |FilterAll(shallow, all)| == 1 then shallow else tagged;
    i := FilteredIsOnly(tests, all);
    OnlyDominates(all, i, name, m, tests, tests == tagged);
    OnlyIsFiltered(tests, all, i);
  }

  lemma OnlyDominates(all: seq<Candidate>, i: int, name: string, m: nat, tests: seq<Test>, tagged: bool)
    requires Only(tests, all, i)
    requires forall c :: PassesAll(c, tests) <==> c.name == name && c.depth == m && (tagged ==> c.tagged)
    requires forall j | 0 <= j < |all| && all[j].name == name :: m <= all[j].depth
    ensures Dominates(all, i) && all[i].name == name
  {
    hide PassesAll;
  }

  lemma DominatorIsDominant(all: seq<Candidate>, i: int)
    requires Dominates(all, i) && Named(all, all[i].name) != []
    ensures Dominant(Named(all, all[i].name)) == Some(all[i])
  {
    var name := all[i].name;
    var m := MinDepth(Named(all, name));
    var shallow, tagged := [IsNamed(name), IsAt(m)], [IsNamed(name), IsAt(m), IsTagged];
    NamedTests(all, name, m);
    DominatorIsOnly(all, i, m, shallow, tagged);
    hide Filter, PassesAll, FilterAll, MinDepth, Named, Only;
    if Only(shallow, all, i) {
      OnlyIsFiltered(shallow, all, i);
    } else {
      OnlyIsFiltered(tagged, all, i);
      if |FilterAll(shallow, all)| == 1 {
        var k := FilteredIsOnly(shallow, all);
      }
    }
  }

  lemma DominatorIsOnly(all: seq<Candidate>, i: int, m: nat, shallow: seq<Test>, tagged: seq<Test>)
    requires Dominates(all, i) && Named(all, all[i].name) != [] && m == MinDepth(Named(all, all[i].name))
    requires shallow == [IsNamed(all[i].name), IsAt(m)] && tagged == [IsNamed(all[i].name), IsAt(m), IsTagged]
    ensures Only(shallow, all, i) || (Only(tagged, all, i) && forall k :: !Only(shallow, all, k))
  {
    DepthIsLeast(all, all[i].name);
    TestMeanings(all[i].name, m);
    hide PassesAll, MinDepth, Named;
    assert all[i].depth == m;
  }

  /** dominant's two selections as tests on all candidates. */
  lemma NamedTests(all: seq<Candidate>, name: string, m: nat)
    ensures FilterAll([IsNamed(name), IsAt(m)], all) == Filter(IsAt(m), Named(all, name))
    ensures FilterAll([IsNamed(name), IsAt(m), IsTagged], all) == Filter(IsTagged, Filter(IsAt(m), Named(all, name)))
  {
    hide Filter;
    var one, two, three := [IsNamed(name)], [IsNamed(name), IsAt(m)], [IsNamed(name), IsAt(m), IsTagged];
    assert one[..0] == [] && two[..1] == one && three[..2] == two;
    assert FilterAll(one, all) == Named(all, name);
  }

  lemma TestMeanings(name: string, m: nat)
    ensures forall c :: PassesAll(c, [IsNamed(name), IsAt(m)]) <==> c.name == name && c.depth == m
    ensures forall c :: PassesAll(c, [IsNamed(name), IsAt(m), IsTagged]) <==> c.name == name && c.depth == m && c.tagged
  {
    var one, two, three := [IsNamed(name)], [IsNamed(name), IsAt(m)], [IsNamed(name), IsAt(m), IsTagged];
    assert one[..0] == [] && two[..1] == one && three[..2] == two;
    forall c: Candidate
      ensures PassesAll(c, two) <==> c.name == name && c.depth == m
      ensures PassesAll(c, three) <==> c.name == name && c.depth == m && c.tagged
    {
      assert PassesAll(c, one) <==> c.name == name;
    }
  }

  lemma LeastIsAttained(fields: seq<Candidate>)
    requires fields != []
    ensures exists f :: f in fields && f.depth == MinDepth(fields)
  {
    var m := MinDepth(fields);
    assert exists f :: f in fields && f.depth == m;
  }

  lemma DepthIsLeast(all: seq<Candidate>, name: string)
    requires Named(all, name) != []
    ensures var m := MinDepth(Named(all, name));
      && (forall i | 0 <= i < |all| && all[i].name == name :: m <= all[i].depth)
      && exists i :: 0 <= i < |all| && all[i].name == name && all[i].depth == m
  {
    var named := Named(all, name);
    forall i | 0 <= i < |all| && all[i].name == name ensures MinDepth(named) <= all[i].depth {
      assert all[i] in named;
    }
    LeastIsAttained(named);
    var least :| least in named && least.depth == MinDepth(named);
    var i :| 0 <= i < |all| && all[i] == least;
  }

  lemma {:induction false} WinnersAre(all: seq<Candidate>, names: seq<string>, f: Candidate)
    ensures f in Winners(all, names) <==>
      exists k :: 0 <= k < |names| && Named(all, names[k]) != [] && Dominant(Named(all, names[k])) == Some(f)
  {
    hide Named, Dominant;
    if names != [] {
      WinnersAre(all, names[..|names| - 1], f);
    }
  }

  lemma DominantIsNamed(all: seq<Candidate>, name: string)
    requires Named(all, name) != [] && Dominant(Named(all, name)).Some?
    ensures Dominant(Named(all, name)).value.name == name
  {
    var i := DominantDominates(all, name, Dominant(Named(all, name)).value);
  }

  ghost predicate DistinctNames(s: seq<Candidate>) { forall i, j | 0 <= i < j < |s| :: s[i].name != s[j].name }

  /** At most one property per name. */
  lemma {:induction false} WinnersAreDistinct(all: seq<Candidate>, names: seq<string>)
    requires forall i, j | 0 <= i < j < |names| :: names[i] != names[j]
    ensures forall c | c in Winners(all, names) :: c.name in names
    ensures DistinctNames(Winners(all, names))
  {
    hide Named, Dominant;
    if names != [] {
      var n := |names| - 1;
      var before := Winners(all, names[..n]);
      WinnersAreDistinct(all, names[..n]);
      assert forall i | 0 <= i < |before| :: before[i] in before;
      assert names[n] !in names[..n];
      if Named(all, names[n]) != [] && Dominant(Named(all, names[n])).Some? {
        DominantIsNamed(all, names[n]);
        var w := Winners(all, names);
        assert w == before + [Dominant(Named(all, names[n])).value];
        AppendIsDistinct(before, w[|before|], names[..n]);
      }
    }
  }

  lemma AppendIsDistinct(before: seq<Candidate>, f: Candidate, names: seq<string>)
    requires f.name !in names && forall c | c in before :: c.name in names
    requires DistinctNames(before)
    ensures DistinctNames(before + [f])
  {
    var w := before + [f];
    forall i, j | 0 <= i < j < |w| ensures w[i].name != w[j].name {
      assert w[i] in before;
      assert w[i].name in names;
      if j < |before| {
        assert before[i].name != before[j].name;
      } else {
        assert w[j].name !in names;
      }
    }
  }

  /** Some winner in the list is f. */
  ghost predicate Wins(all: seq<Candidate>, f: Candidate) { exists i :: Dominates(all, i) && all[i] == f }

  lemma ResolvedWin(all: seq<Candidate>, f: Candidate)
    ensures f in Winners(all, Names(all)) <==> Wins(all, f)
  {
    hide Dominant, Named, Names;
    WinnersAre(all, Names(all), f);
    if f in Winners(all, Names(all)) {
      var k :| 0 <= k < |Names(all)| && Named(all, Names(all)[k]) != []
        && Dominant(Named(all, Names(all)[k])) == Some(f);
      var i := DominantDominates(all, Names(all)[k], f);
    }
    if Wins(all, f) {
      var i :| Dominates(all, i) && all[i] == f;
      assert f in all;
      NamedIfNames(all, f.name);
      DominatorIsDominant(all, i);
      var k :| 0 <= k < |Names(all)| && Names(all)[k] == f.name;
    }
  }

  // ---------------------------------------------------------------- the tree of embedded structs

  /** A way down from a struct: field positions, all but the last of untagged embedded structs. */
  type Path = seq<nat>

  ghost predicate IsPath(shapes: Shapes, t: TypeId, p: Path)
    decreases |p|
  {
    if !IsStruct(shapes, t) || p == [] || p[0] >= |shapes[t].fields| then false
    else
      match RoleOf(shapes, shapes[t].fields[p[0]])
      case Skipped => false
      case Property => |p| == 1
      case Embedded(target, _) => IsPath(shapes, target, p[1..])
  }

  /** The field at the end of a path. */
  ghost function Target(shapes: Shapes, t: TypeId, p: Path): (d: Decl)
    requires IsPath(shapes, t, p)
    ensures d.typ < |shapes|
    decreases |p|
  {
    var d := shapes[t].fields[p[0]];
    match RoleOf(shapes, d)
    case Embedded(target, _) => Target(shapes, target, p[1..])
    case _ => d
  }

  /** Whether some struct on the way is embedded through a pointer. */
  ghost predicate ThroughPointer(shapes: Shapes, t: TypeId, p: Path)
    requires IsPath(shapes, t, p)
    decreases |p|
  {
    match RoleOf(shapes, shapes[t].fields[p[0]])
    case Embedded(target, through) => through || ThroughPointer(shapes, target, p[1..])
    case _ => false
  }

  /** The candidate at the end of a path: as deep as the path is long, omittable when some embedded
      pointer on the way may be nil. */
  ghost function At(shapes: Shapes, t: TypeId, p: Path, depth: nat, optional: bool): Candidate
    requires IsPath(shapes, t, p)
  {
    assert |p| >= 1;
    CandidateOf(shapes, Target(shapes, t, p), depth + |p| - 1, optional || ThroughPointer(shapes, t, p))
  }

  /** The path meets no struct of seen, and none twice. */
  ghost predicate Avoids(shapes: Shapes, t: TypeId, p: Path, seen: set<TypeId>)
    requires IsPath(shapes, t, p)
    decreases |p|
  {
    t !in seen &&
    match RoleOf(shapes, shapes[t].fields[p[0]])
    case Embedded(target, _) => Avoids(shapes, target, p[1..], seen + {t})
    case _ => true
  }

  // ---------------------------------------------------------------- collectFields walks the tree

  ghost function Under(i: nat, ps: seq<Path>): seq<Path> { seq(|ps|, k requires 0 <= k < |ps| => [i] + ps[k]) }

  /** The paths of the candidates, in the order they are collected. */
  ghost function PathsOf(shapes: Shapes, t: TypeId, seen: set<TypeId>): seq<Path>
    requires IsStruct(shapes, t)
    decreases Left(shapes, seen), 0, 0
  {
    if t in seen then []
    else
      assert t in Left(shapes, seen) && t !in Left(shapes, seen + {t});
      PathsIn(shapes, shapes[t].fields, seen + {t})
  }

  ghost function PathsIn(shapes: Shapes, decls: seq<Decl>, seen: set<TypeId>): seq<Path>
    decreases Left(shapes, seen), 1, |decls|
  {
    if decls == [] then []
    else
      var n := |decls| - 1;
      PathsIn(shapes, decls[..n], seen) + PathsAt(shapes, decls[n], n, seen)
  }

  ghost function PathsAt(shapes: Shapes, d: Decl, i: nat, seen: set<TypeId>): seq<Path>
    decreases Left(shapes, seen), 0, 1
  {
    match RoleOf(shapes, d)
    case Skipped => []
    case Property => [[i]]
    case Embedded(target, _) => Under(i, PathsOf(shapes, target, seen))
  }

  /** ps lists, once each, the paths that avoid seen; cs lists their candidates. */
  ghost predicate Lists(shapes: Shapes, t: TypeId, depth: nat, optional: bool, seen: set<TypeId>,
      cs: seq<Candidate>, ps: seq<Path>)
  {
    && |cs| == |ps|
    && (forall k, l | 0 <= k < l < |ps| :: ps[k] != ps[l])
    && (forall k | 0 <= k < |ps| :: IsPath(shapes, t, ps[k]) && cs[k] == At(shapes, t, ps[k], depth, optional))
    && (forall p | IsPath(shapes, t, p) :: p in ps <==> Avoids(shapes, t, p, seen))
  }

  /** The same for the fields of one struct. */
  ghost predicate IsPathIn(shapes: Shapes, decls: seq<Decl>, p: Path) {
    if p == [] || p[0] >= |decls| then false
    else
      match RoleOf(shapes, decls[p[0]])
      case Skipped => false
      case Property => |p| == 1
      case Embedded(target, _) => IsPath(shapes, target, p[1..])
  }

  ghost predicate AvoidsIn(shapes: Shapes, decls: seq<Decl>, p: Path, seen: set<TypeId>)
    requires IsPathIn(shapes, decls, p)
  {
    match RoleOf(shapes, decls[p[0]])
    case Embedded(target, _) => Avoids(shapes, target, p[1..], seen)
    case _ => true
  }

  ghost function AtIn(shapes: Shapes, decls: seq<Decl>, p: Path, depth: nat, optional: bool): Candidate
    requires IsPathIn(shapes, decls, p)
  {
    var role := RoleOf(shapes, decls[p[0]]);
    if role.Embedded? then At(shapes, role.target, p[1..], depth + 1, optional || role.throughPointer)
    else CandidateOf(shapes, decls[p[0]], depth, optional)
  }

  ghost predicate ListsIn(shapes: Shapes, decls: seq<Decl>, depth: nat, optional: bool, seen: set<TypeId>,
      cs: seq<Candidate>, ps: seq<Path>)
  {
    && |cs| == |ps|
    && (forall k, l | 0 <= k < l < |ps| :: ps[k] != ps[l])
    && (forall k | 0 <= k < |ps| ::
      IsPathIn(shapes, decls, ps[k]) && cs[k] == AtIn(shapes, decls, ps[k], depth, optional))
    && (forall p | IsPathIn(shapes, decls, p) :: p in ps <==> AvoidsIn(shapes, decls, p, seen))
  }

  lemma AtStep(shapes: Shapes, t: TypeId, p: Path, depth: nat, optional: bool)
    requires IsPath(shapes, t, p)
    ensures At(shapes, t, p, depth, optional) == AtIn(shapes, shapes[t].fields, p, depth, optional)
  {
  }

  lemma {:induction false} CollectLists(shapes: Shapes, t: TypeId, depth: nat, optional: bool, seen: set<TypeId>)
    requires IsStruct(shapes, t)
    ensures Lists(shapes, t, depth, optional, seen, Collect(shapes, t, depth, optional, seen), PathsOf(shapes, t, seen))
    decreases Left(shapes, seen), 0, 0
  {
    if t !in seen {
      assert t in Left(shapes, seen) && t !in Left(shapes, seen + {t});
      CollectListsIn(shapes, shapes[t].fields, depth, optional, seen + {t});
      StructLists(shapes, t, depth, optional, seen, Collect(shapes, t, depth, optional, seen),
        PathsOf(shapes, t, seen));
    }
  }

  lemma StructLists(shapes: Shapes, t: TypeId, depth: nat, optional: bool, seen: set<TypeId>,
      cs: seq<Candidate>, ps: seq<Path>)
    requires IsStruct(shapes, t) && t !in seen
    requires ListsIn(shapes, shapes[t].fields, depth, optional, seen + {t}, cs, ps)
    ensures Lists(shapes, t, depth, optional, seen, cs, ps)
  {
    forall p
      ensures IsPath(shapes, t, p) <==> IsPathIn(shapes, shapes[t].fields, p)
      ensures IsPath(shapes, t, p) ==>
        && Avoids(shapes, t, p, seen) == AvoidsIn(shapes, shapes[t].fields, p, seen + {t})
        && At(shapes, t, p, depth, optional) == AtIn(shapes, shapes[t].fields, p, depth, optional)
    {
      if IsPath(shapes, t, p) {
        AtStep(shapes, t, p, depth, optional);
      }
    }
    hide IsPath, IsPathIn, Avoids, AvoidsIn, At, AtIn;
  }

  lemma {:induction false} CollectListsIn(shapes: Shapes, decls: seq<Decl>, depth: nat, optional: bool,
      seen: set<TypeId>)
    ensures ListsIn(shapes, decls, depth, optional, seen,
                    CollectDecls(shapes, decls, depth, optional, seen), PathsIn(shapes, decls, seen))
    decreases Left(shapes, seen), 1, |decls|
  {
    if decls != [] {
      var n := |decls| - 1;
      CollectListsIn(shapes, decls[..n], depth, optional, seen);
      if RoleOf(shapes, decls[n]).Embedded? {
        var e := RoleOf(shapes, decls[n]);
        CollectLists(shapes, e.target, depth + 1, optional || e.throughPointer, seen);
      }
      LastLists(shapes, decls, depth, optional, seen);
      LastDecl(shapes, decls, depth, optional, seen,
               CollectDecls(shapes, decls[..n], depth, optional, seen), PathsIn(shapes, decls[..n], seen),
               CollectDecl(shapes, decls[n], depth, optional, seen), PathsAt(shapes, decls[n], n, seen));
    }
  }

  /** The last field's own candidates and paths. */
  ghost predicate ListsLast(shapes: Shapes, decls: seq<Decl>, depth: nat, optional: bool, seen: set<TypeId>,
      cs: seq<Candidate>, ps: seq<Path>)
    requires decls != []
  {
    && |cs| == |ps|
    && (forall k, l | 0 <= k < l < |ps| :: ps[k] != ps[l])
    && (forall k | 0 <= k < |ps| :: IsPathIn(shapes, decls, ps[k]) && ps[k][0] == |decls| - 1
          && cs[k] == AtIn(shapes, decls, ps[k], depth, optional))
    && (forall p | IsPathIn(shapes, decls, p) && p[0] == |decls| - 1 :: p in ps <==> AvoidsIn(shapes, decls, p, seen))
  }

  lemma EmbeddedLists(shapes: Shapes, decls: seq<Decl>, depth: nat, optional: bool, seen: set<TypeId>,
      cs: seq<Candidate>, ps: seq<Path>)
    requires decls != [] && RoleOf(shapes, decls[|decls| - 1]).Embedded?
    requires var e := RoleOf(shapes, decls[|decls| - 1]);
      Lists(shapes, e.target, depth + 1, optional || e.throughPointer, seen, cs, ps)
    ensures ListsLast(shapes, decls, depth, optional, seen, cs, Under(|decls| - 1, ps))
  {
    hide Avoids, At, IsPath, RoleOf;
    var n := |decls| - 1;
    var e := RoleOf(shapes, decls[n]);
    var now := Under(n, ps);
    forall k | 0 <= k < |now| ensures now[k][1..] == ps[k] && now[k][0] == n {}
    forall p | IsPathIn(shapes, decls, p) && p[0] == n ensures p in now <==> AvoidsIn(shapes, decls, p, seen) {
      assert p == [n] + p[1..];
      if p[1..] in ps {
        var k :| 0 <= k < |ps| && ps[k] == p[1..];
        assert now[k] == p;
      }
      if p in now {
        var k :| 0 <= k < |now| && now[k] == p;
        assert ps[k] == p[1..];
      }
      assert IsPath(shapes, e.target, p[1..]);
    }
  }

  lemma LastLists(shapes: Shapes, decls: seq<Decl>, depth: nat, optional: bool, seen: set<TypeId>)
    requires decls != []
    requires var e := RoleOf(shapes, decls[|decls| - 1]);
      e.Embedded? ==> Lists(shapes, e.target, depth + 1, optional || e.throughPointer, seen,
        Collect(shapes, e.target, depth + 1, optional || e.throughPointer, seen), PathsOf(shapes, e.target, seen))
    ensures var n := |decls| - 1;
      ListsLast(shapes, decls, depth, optional, seen,
                CollectDecl(shapes, decls[n], depth, optional, seen), PathsAt(shapes, decls[n], n, seen))
  {
    hide Collect, PathsOf, Avoids, At, Lists;
    var n := |decls| - 1;
    match RoleOf(shapes, decls[n])
    case Embedded(target, through) =>
      EmbeddedLists(shapes, decls, depth, optional, seen,
        Collect(shapes, target, depth + 1, optional || through, seen), PathsOf(shapes, target, seen));
    case Property =>
      assert forall p | IsPathIn(shapes, decls, p) && p[0] == n :: p == [n];
    case Skipped =>
  }

  lemma PrefixLists(shapes: Shapes, decls: seq<Decl>, p: Path, depth: nat, optional: bool, seen: set<TypeId>)
    requires decls != []
    ensures IsPathIn(shapes, decls[..|decls| - 1], p) <==> IsPathIn(shapes, decls, p) && p[0] < |decls| - 1
    ensures IsPathIn(shapes, decls[..|decls| - 1], p) ==>
      && AvoidsIn(shapes, decls[..|decls| - 1], p, seen) == AvoidsIn(shapes, decls, p, seen)
      && AtIn(shapes, decls[..|decls| - 1], p, depth, optional) == AtIn(shapes, decls, p, depth, optional)
  {
    hide RoleOf, IsPath, Avoids, At, CandidateOf;
  }

  lemma LastDecl(shapes: Shapes, decls: seq<Decl>, depth: nat, optional: bool, seen: set<TypeId>,
      cs: seq<Candidate>, ps: seq<Path>, moreCs: seq<Candidate>, morePs: seq<Path>)
    requires decls != [] && ListsIn(shapes, decls[..|decls| - 1], depth, optional, seen, cs, ps)
    requires ListsLast(shapes, decls, depth, optional, seen, moreCs, morePs)
    ensures ListsIn(shapes, decls, depth, optional, seen, cs + moreCs, ps + morePs)
  {
    hide IsPathIn, AvoidsIn, AtIn;
    var n := |decls| - 1;
    var allCs, allPs := cs + moreCs, ps + morePs;
    forall k | 0 <= k < |allPs|
      ensures IsPathIn(shapes, decls, allPs[k]) && allPs[k] != [] && (allPs[k][0] < n <==> k < |ps|)
      ensures allCs[k] == AtIn(shapes, decls, allPs[k], depth, optional)
    {
      PrefixLists(shapes, decls, allPs[k], depth, optional, seen);
      PathBounds(shapes, decls, allPs[k]);
    }
    forall p | IsPathIn(shapes, decls, p) ensures p in allPs <==> AvoidsIn(shapes, decls, p, seen) {
      PrefixLists(shapes, decls, p, depth, optional, seen);
      PathBounds(shapes, decls, p);
    }
  }

  lemma PathBounds(shapes: Shapes, decls: seq<Decl>, p: Path)
    requires IsPathIn(shapes, decls, p)
    ensures p != [] && p[0] < |decls|
  {
  }

  // ---------------------------------------------------------------- cutting a cycle loses nothing

  /** A path that meets a struct of seen, or one struct twice, has a shorter one to the same field: from
      the same struct, or its own rest from a struct of seen. */
  lemma {:induction false} Shortcut(shapes: Shapes, t: TypeId, p: Path, seen: set<TypeId>)
    returns (from: TypeId, q: Path)
    requires IsPath(shapes, t, p) && !Avoids(shapes, t, p, seen)
    ensures IsPath(shapes, from, q) && Target(shapes, from, q) == Target(shapes, t, p)
    ensures (from == t && |q| < |p|) || (from in seen && |q| <= |p|)
    decreases |p|
  {
    if t in seen {
      from, q := t, p;
    } else {
      var target := RoleOf(shapes, shapes[t].fields[p[0]]).target;
      from, q := Shortcut(shapes, target, p[1..], seen + {t});
      if from == target && |q| < |p[1..]| {
        from, q := t, [p[0]] + q;
        assert q[1..] == ([p[0]] + q[1..])[1..];
      }
    }
  }

  /** Every field of the tree has a path that meets no struct twice, and no longer one. */
  lemma {:induction false} SimplePath(shapes: Shapes, t: TypeId, p: Path) returns (q: Path)
    requires IsPath(shapes, t, p)
    ensures IsPath(shapes, t, q) && Avoids(shapes, t, q, {}) && Target(shapes, t, q) == Target(shapes, t, p)
    ensures q == p || |q| < |p|
    decreases |p|
  {
    q := p;
    if !Avoids(shapes, t, p, {}) {
      var from, shorter := Shortcut(shapes, t, p, {});
      q := SimplePath(shapes, t, shorter);
    }
  }

  /** Go's rule, over the whole tree: the field wins its name against every other of the tree that has
      the name - each is deeper, or as deep and untagged where this one is tagged. */
  ghost predicate WinsTree(shapes: Shapes, t: TypeId, p: Path) {
    IsPath(shapes, t, p) && forall q | IsPath(shapes, t, q) && q != p
      && PropertyName(Target(shapes, t, q)) == PropertyName(Target(shapes, t, p)) ::
      |q| > |p| || (|q| == |p| && TagName(Target(shapes, t, p)) != "" && TagName(Target(shapes, t, q)) == "")
  }

  lemma CandidateAt(shapes: Shapes, t: TypeId, p: Path)
    requires IsPath(shapes, t, p)
    ensures var c, d := At(shapes, t, p, 0, false), Target(shapes, t, p);
      |p| >= 1 && c.name == PropertyName(d) && c.depth == |p| - 1 && (c.tagged <==> TagName(d) != "")
  {
  }

  /** Candidates at the ends of all simple paths: a winner among them wins the tree. */
  lemma DominatorWinsTree(shapes: Shapes, t: TypeId, all: seq<Candidate>, ps: seq<Path>, i: nat)
    requires Lists(shapes, t, 0, false, {}, all, ps) && Dominates(all, i)
    ensures WinsTree(shapes, t, ps[i])
  {
    hide At, Target, IsPath, Avoids, PropertyName, TagName;
    CandidateAt(shapes, t, ps[i]);
    forall q | IsPath(shapes, t, q) && q != ps[i]
      && PropertyName(Target(shapes, t, q)) == PropertyName(Target(shapes, t, ps[i]))
      ensures |q| > |ps[i]|
        || (|q| == |ps[i]| && TagName(Target(shapes, t, ps[i])) != "" && TagName(Target(shapes, t, q)) == "")
    {
      var simple := SimplePath(shapes, t, q);
      var j :| 0 <= j < |ps| && ps[j] == simple;
      CandidateAt(shapes, t, ps[j]);
      assert all[j].name == all[i].name;
    }
  }

  lemma TreeWinnerDominates(shapes: Shapes, t: TypeId, all: seq<Candidate>, ps: seq<Path>, i: nat)
    requires Lists(shapes, t, 0, false, {}, all, ps) && i < |all| && WinsTree(shapes, t, ps[i])
    ensures Dominates(all, i)
  {
    hide At, Target, IsPath, Avoids, PropertyName, TagName;
    CandidateAt(shapes, t, ps[i]);
    forall j | 0 <= j < |all| && j != i && all[j].name == all[i].name
      ensures all[j].depth > all[i].depth || (all[j].depth == all[i].depth && all[i].tagged && !all[j].tagged)
    {
      CandidateAt(shapes, t, ps[j]);
      assert ps[j] != ps[i];
    }
  }

  /** A winner of the tree is collected: its own path meets no struct twice. */
  lemma WinnerIsCollected(shapes: Shapes, t: TypeId, p: Path) returns (i: int)
    requires IsStruct(shapes, t) && WinsTree(shapes, t, p)
    ensures 0 <= i < |Collect(shapes, t, 0, false, {})| == |PathsOf(shapes, t, {})| && PathsOf(shapes, t, {})[i] == p
    ensures Collect(shapes, t, 0, false, {})[i] == At(shapes, t, p, 0, false)
  {
    CollectLists(shapes, t, 0, false, {});
    hide Collect, PathsOf, At, Target, IsPath, Avoids, PropertyName, TagName;
    var simple := SimplePath(shapes, t, p);
    assert simple == p;
    var ps := PathsOf(shapes, t, {});
    i :| 0 <= i < |ps| && ps[i] == p;
  }

  /** The properties jsonFields returns are the winners of the whole tree of embedded structs, cyclic or
      not, and no two have one name: stopping at a struct already on the way loses no property and
      changes no winner. */
  lemma FieldsFollowEmbeddingRule(shapes: Shapes, t: TypeId, f: Candidate)
    requires IsStruct(shapes, t)
    ensures f in FieldsOf(shapes, t) <==> exists p :: WinsTree(shapes, t, p) && f == At(shapes, t, p, 0, false)
    ensures DistinctNames(FieldsOf(shapes, t))
  {
    var all, ps := Collect(shapes, t, 0, false, {}), PathsOf(shapes, t, {});
    ResolvedWin(all, f);
    WinnersAreDistinct(all, Names(all));
    CollectLists(shapes, t, 0, false, {});
    hide Collect, PathsOf, At, IsPath, Avoids, Winners, Names, WinsTree;
    if Wins(all, f) {
      var i :| Dominates(all, i) && all[i] == f;
      DominatorWinsTree(shapes, t, all, ps, i);
      assert WinsTree(shapes, t, ps[i]);
    }
    if p :| WinsTree(shapes, t, p) && f == At(shapes, t, p, 0, false) {
      var i := WinnerIsCollected(shapes, t, p);
      TreeWinnerDominates(shapes, t, all, ps, i);
      assert Dominates(all, i);
    }
  }
}
