/** reachesAny (contract/derive.go): a depth-first walk over $refs with a shared seen set, and the
    reachability it decides. */
module RefReachability {
  import opened JsonTrees
  import opened Hash

  /** strings.TrimPrefix(ref, RefPrefix). */
  function RefKey(ref: string): string {
    if REF_PREFIX <= ref then ref[|REF_PREFIX|..] else ref
  }

  /** Every key referenced anywhere in v, schema position or not. */
  ghost function AllRefs(v: Json): set<string> {
    match v
    case Obj(m) => OwnRef(m) + set k, r | k in m && r in AllRefs(m[k]) :: r
    case Arr(items) => set i, r | 0 <= i < |items| && r in AllRefs(items[i]) :: r
    case _ => {}
  }

  function OwnRef(m: map<string, Json>): set<string> {
    if "$ref" in m && m["$ref"].Str? then {RefKey(m["$ref"].s)} else {}
  }

  /** A chain of references starting in v and ending at key p[|p|-1]. */
  ghost predicate RefChain(v: Json, schemas: Components, p: seq<string>) {
    && p != []
    && p[0] in AllRefs(v)
    && forall i | 0 <= i < |p| - 1 :: p[i] in schemas && p[i + 1] in AllRefs(schemas[p[i]])
  }

  /** v reaches a target through references. */
  ghost predicate Touches(v: Json, schemas: Components, targets: set<string>) {
    exists p :: RefChain(v, schemas, p) && p[|p| - 1] in targets
  }

  /** Keys whose references are all seen and no target. */
  ghost predicate Explored(keys: set<string>, seen: set<string>, schemas: Components, targets: set<string>) {
    forall k | k in keys && k in schemas :: AllRefs(schemas[k]) <= seen && AllRefs(schemas[k]) !! targets
  }

  lemma TouchesThrough(v: Json, schemas: Components, targets: set<string>, key: string)
    requires key in AllRefs(v) && key in schemas && Touches(schemas[key], schemas, targets)
    ensures Touches(v, schemas, targets)
  {
    var p :| RefChain(schemas[key], schemas, p) && p[|p| - 1] in targets;
    var q := [key] + p;
    assert RefChain(v, schemas, q) && q[|q| - 1] in targets;
  }

  lemma TouchesOwn(v: Json, schemas: Components, targets: set<string>, key: string)
    requires key in AllRefs(v) && key in targets
    ensures Touches(v, schemas, targets)
  {
    assert RefChain(v, schemas, [key]) && [key][0] in targets;
  }

  lemma TouchesPart(v: Json, part: Json, schemas: Components, targets: set<string>)
    requires AllRefs(part) <= AllRefs(v) && Touches(part, schemas, targets)
    ensures Touches(v, schemas, targets)
  {
    var p :| RefChain(part, schemas, p) && p[|p| - 1] in targets;
    assert RefChain(v, schemas, p);
  }

  /** An explored set that holds v's references is never left by a chain from v. */
  lemma {:induction false} ExploredIsClosed(v: Json, schemas: Components, targets: set<string>,
      seen: set<string>, p: seq<string>)
    requires AllRefs(v) <= seen && AllRefs(v) !! targets && Explored(seen, seen, schemas, targets)
    requires RefChain(v, schemas, p)
    ensures p[|p| - 1] in seen && p[|p| - 1] !in targets
  {
    if |p| > 1 {
      var q := p[..|p| - 1];
      assert RefChain(v, schemas, q);
      ExploredIsClosed(v, schemas, targets, seen, q);
      assert q[|q| - 1] == p[|p| - 2];
    }
  }

  /** walk. A hit is a real chain; a miss leaves everything new explored. */
  method Walk(v: Json, schemas: Components, targets: set<string>, seen: set<string>)
    returns (found: bool, seen': set<string>)
    ensures seen <= seen'
    ensures found ==> Touches(v, schemas, targets)
    ensures !found ==> AllRefs(v) <= seen' && AllRefs(v) !! targets && Explored(seen' - seen, seen', schemas, targets)
    decreases schemas.Keys - seen, v
  {
    hide Touches;
    found, seen' := false, seen;
    match v {
      case Obj(m) =>
        if "$ref" in m && m["$ref"].Str? {
          var key := RefKey(m["$ref"].s);
          assert key in AllRefs(v);
          if key in targets {
            TouchesOwn(v, schemas, targets, key);
            return true, seen;
          }
          if key !in seen {
            seen' := seen + {key};
            if key in schemas {
              found, seen' := Walk(schemas[key], schemas, targets, seen + {key});
              if found {
                TouchesThrough(v, schemas, targets, key);
                return;
              }
            }
          }
        }
        var todo := m.Keys;
        while todo != {}
          invariant todo <= m.Keys && seen <= seen' && !found
          invariant OwnRef(m) <= seen' && OwnRef(m) !! targets
          invariant forall k | k in m && k !in todo :: AllRefs(m[k]) <= seen' && AllRefs(m[k]) !! targets
          invariant Explored(seen' - seen, seen', schemas, targets)
        {
          var k :| k in todo;
          todo := todo - {k};
          ghost var before := seen';
          assert AllRefs(m[k]) <= AllRefs(v);
          found, seen' := Walk(m[k], schemas, targets, seen');
          if found {
            TouchesPart(v, m[k], schemas, targets);
            return;
          }
          assert Explored(before - seen, seen', schemas, targets);
        }
      case Arr(items) =>
        var i := 0;
        while i < |items|
          invariant 0 <= i <= |items| && seen <= seen' && !found
          invariant forall j | 0 <= j < i :: AllRefs(items[j]) <= seen' && AllRefs(items[j]) !! targets
          invariant Explored(seen' - seen, seen', schemas, targets)
        {
          ghost var before := seen';
          assert AllRefs(items[i]) <= AllRefs(v);
          found, seen' := Walk(items[i], schemas, targets, seen');
          if found {
            TouchesPart(v, items[i], schemas, targets);
            return;
          }
          assert Explored(before - seen, seen', schemas, targets);
          i := i + 1;
        }
      case _ =>
    }
  }

  /** reachesAny decides reachability through references. */
  method ReachesAny(roots: seq<Json>, schemas: Components, targets: set<string>) returns (found: bool)
    ensures found <==> exists i :: 0 <= i < |roots| && Touches(roots[i], schemas, targets)
  {
    var seen: set<string> := {};
    var i := 0;
    while i < |roots|
      invariant 0 <= i <= |roots|
      invariant forall j | 0 <= j < i :: AllRefs(roots[j]) <= seen && AllRefs(roots[j]) !! targets
      invariant Explored(seen, seen, schemas, targets)
    {
      ghost var before := seen;
      found, seen := Walk(roots[i], schemas, targets, seen);
      if found {
        return;
      }
      assert Explored(before, seen, schemas, targets);
      i := i + 1;
    }
    forall j | 0 <= j < |roots| ensures !Touches(roots[j], schemas, targets) {
      forall p | RefChain(roots[j], schemas, p) ensures p[|p| - 1] !in targets {
        ExploredIsClosed(roots[j], schemas, targets, seen, p);
      }
    }
    found := false;
  }
}
