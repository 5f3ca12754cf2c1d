/** When derivation ends: the deriver's recursion with a bound on its depth, which every type of a table
    needs only so much of exactly when no cycle of types avoids the named structs. */
module DeriverEnds {
  import opened JsonTrees
  import opened Options
  import opened GoTypes
  import opened SchemaDeriver
  import opened Hash

  // ---------------------------------------------------------------- the recursion, bounded

  /** schema, none when the recursion is deeper than n. It asks nothing of the table. */
  function SchemaWithin(env: Types, t: TypeId, visiting: set<TypeId>, book: Book, n: nat): (r: Option<(Json, Book)>)
    requires InRange(env) && t < |env|
    ensures r.Some? ==> r.value.0.Obj? && book.schemas.Keys <= r.value.1.schemas.Keys
    decreases n, 0
  {
    var ty := env[t];
    if n == 0 then None
    else if IsLeaf(env, t) then Some((LeafSchema(env, t), book))
    else if !ty.kind.Struct? then
      match SchemaWithin(env, ElementOf(env, t), visiting, book, n - 1)
      case None => None
      case Some((inner, book')) => Some((Around(env, t, inner), book'))
    else if Hoisted(ty) then
      var key := ty.qualified;
      if key in book.schemas then Some((RefTo(key), book))
      else
        var started := Book(book.schemas[key := None], book.types[key := t], book.names[key := ty.component]);
        match PropertiesWithin(env, ty.kind.fields, {}, started, map[], n - 1)
        case None => None
        case Some((properties, book')) =>
          var built := ObjectSchema(properties, RequiredNames(ty.kind.fields));
          Some((RefTo(key), book'.(schemas := book'.schemas[key := Some(built)])))
    else if Hoistable(ty) && t in visiting then Some((EMPTY, book))
    else
      var visiting' := if Hoistable(ty) then visiting + {t} else visiting;
      match PropertiesWithin(env, ty.kind.fields, visiting', book, map[], n - 1)
      case None => None
      case Some((properties, book')) => Some((ObjectSchema(properties, RequiredNames(ty.kind.fields)), book'))
  }

  /** object's loop. */
  function PropertiesWithin(env: Types, fields: seq<JsonField>, visiting: set<TypeId>, book: Book,
      acc: map<string, Json>, n: nat)
    : (r: Option<(map<string, Json>, Book)>)
    requires InRange(env) && forall f | f in fields :: f.typ < |env|
    ensures r.Some? ==> book.schemas.Keys <= r.value.1.schemas.Keys
    decreases n, |fields| + 1
  {
    if fields == [] then Some((acc, book))
    else
      match PropertyWithin(env, fields[0], visiting, book, n)
      case None => None
      case Some((s, book')) => PropertiesWithin(env, fields[1..], visiting, book', acc[fields[0].name := s], n)
  }

  function PropertyWithin(env: Types, f: JsonField, visiting: set<TypeId>, book: Book, n: nat)
    : (r: Option<(Json, Book)>)
    requires InRange(env) && f.typ < |env|
    ensures r.Some? ==> r.value.0.Obj? && book.schemas.Keys <= r.value.1.schemas.Keys
    decreases n, 1
  {
    if f.quoted then Some((QuotedSchema(env[f.typ]), book)) else SchemaWithin(env, f.typ, visiting, book, n)
  }

  // ---------------------------------------------------------------- a larger bound changes nothing

  lemma {:induction false} MoreIsEnough(env: Types, t: TypeId, visiting: set<TypeId>, book: Book, n: nat, m: nat)
    requires InRange(env) && t < |env| && n <= m && SchemaWithin(env, t, visiting, book, n).Some?
    ensures SchemaWithin(env, t, visiting, book, m) == SchemaWithin(env, t, visiting, book, n)
    decreases n, 0
  {
    hide LeafSchema, Around, ObjectSchema, RequiredNames, PropertiesWithin, IsLeaf;
    var ty := env[t];
    if IsLeaf(env, t) {
    } else if !ty.kind.Struct? {
      MoreIsEnough(env, ElementOf(env, t), visiting, book, n - 1, m - 1);
    } else if Hoisted(ty) {
      if ty.qualified !in book.schemas {
        var key := ty.qualified;
        var started := Book(book.schemas[key := None], book.types[key := t], book.names[key := ty.component]);
        MoreForProperties(env, ty.kind.fields, {}, started, map[], n - 1, m - 1);
      }
    } else if !(Hoistable(ty) && t in visiting) {
      var visiting' := if Hoistable(ty) then visiting + {t} else visiting;
      MoreForProperties(env, ty.kind.fields, visiting', book, map[], n - 1, m - 1);
    }
  }

  lemma {:induction false} MoreForProperties(env: Types, fields: seq<JsonField>, visiting: set<TypeId>, book: Book,
      acc: map<string, Json>, n: nat, m: nat)
    requires InRange(env) && (forall f | f in fields :: f.typ < |env|) && n <= m
    requires PropertiesWithin(env, fields, visiting, book, acc, n).Some?
    ensures PropertiesWithin(env, fields, visiting, book, acc, m)
      == PropertiesWithin(env, fields, visiting, book, acc, n)
    decreases n, |fields| + 1
  {
    if fields != [] {
      if !fields[0].quoted {
        MoreIsEnough(env, fields[0].typ, visiting, book, n, m);
      }
      var (s, book') := PropertyWithin(env, fields[0], visiting, book, n).value;
      MoreForProperties(env, fields[1..], visiting, book', acc[fields[0].name := s], n, m);
    }
  }

  // ---------------------------------------------------------------- it is the deriver's recursion

  /** Where the recursion ends, it gives what the deriver gives. */
  lemma {:induction false} WithinIsSchemaOf(env: Types, t: TypeId, visiting: set<TypeId>, book: Book, n: nat)
    requires Finite(env) && t < |env| && SchemaWithin(env, t, visiting, book, n).Some?
    ensures SchemaWithin(env, t, visiting, book, n).value == SchemaOf(env, t, visiting, book)
    decreases n, 0
  {
    hide LeafSchema, Around, ObjectSchema, RequiredNames, PropertiesWithin, PropertiesOf, IsLeaf;
    var ty := env[t];
    if IsLeaf(env, t) {
    } else if !ty.kind.Struct? {
      WithinIsSchemaOf(env, ElementOf(env, t), visiting, book, n - 1);
    } else if Hoisted(ty) {
      if ty.qualified !in book.schemas {
        var key := ty.qualified;
        var started := Book(book.schemas[key := None], book.types[key := t], book.names[key := ty.component]);
        WithinIsPropertiesOf(env, ty.kind.fields, |env|, {}, started, map[], n - 1);
      }
    } else if !(Hoistable(ty) && t in visiting) {
      var visiting' := if Hoistable(ty) then visiting + {t} else visiting;
      assert NeedsEarlier(env, t);
      WithinIsPropertiesOf(env, ty.kind.fields, if Hoistable(ty) then |env| else t, visiting', book, map[], n - 1);
    }
  }

  lemma {:induction false} WithinIsPropertiesOf(env: Types, fields: seq<JsonField>, bound: nat, visiting: set<TypeId>,
      book: Book, acc: map<string, Json>, n: nat)
    requires Finite(env) && bound <= |env| && forall f | f in fields :: f.typ < |env| && Fits(env, f, bound)
    requires PropertiesWithin(env, fields, visiting, book, acc, n).Some?
    ensures PropertiesWithin(env, fields, visiting, book, acc, n).value
         == PropertiesOf(env, fields, bound, visiting, book, acc)
    decreases n, |fields| + 1
  {
    if fields != [] {
      if !fields[0].quoted {
        WithinIsSchemaOf(env, fields[0].typ, visiting, book, n);
      }
      var (s, book') := PropertyWithin(env, fields[0], visiting, book, n).value;
      WithinIsPropertiesOf(env, fields[1..], bound, visiting, book', acc[fields[0].name := s], n);
    }
  }

  // ---------------------------------------------------------------- cycles that no named struct breaks

  /** A type whose schema is made of others' afresh at every occurrence. */
  predicate IsOpen(env: Types, t: TypeId)
    requires InRange(env)
  {
    t < |env| && !IsLeaf(env, t) && !Hoistable(env[t])
  }

  /** A chain of types, each needing the schema of the next, all but the last of them open. */
  ghost predicate IsOpenChain(env: Types, p: seq<TypeId>)
    requires InRange(env)
  {
    |p| >= 2 && forall i | 0 <= i < |p| - 1 :: IsOpen(env, p[i]) && p[i + 1] in Steps(env, p[i])
  }

  ghost predicate OpenlyNeeds(env: Types, t: TypeId, u: TypeId)
    requires InRange(env)
  {
    exists p :: IsOpenChain(env, p) && p[0] == t && p[|p| - 1] == u
  }

  /** No type needs its own schema again without a named struct between. */
  ghost predicate CyclesAreNamed(env: Types)
    requires InRange(env)
  {
    forall t: TypeId | t < |env| :: !OpenlyNeeds(env, t, t)
  }

  /** A type on an unbroken cycle exhausts every bound, whatever has been derived before. */
  lemma {:induction false} CycleExhausts(env: Types, p: seq<TypeId>, i: nat, visiting: set<TypeId>, book: Book, n: nat)
    requires InRange(env) && IsOpenChain(env, p) && p[0] == p[|p| - 1] && i < |p| - 1
    ensures p[i] < |env| && SchemaWithin(env, p[i], visiting, book, n).None?
    decreases n, 0
  {
    hide SchemaWithin, PropertiesWithin, Steps, IsOpen;
    var t, next := p[i], if i + 1 < |p| - 1 then i + 1 else 0;
    assert IsOpen(env, t) && p[next] in Steps(env, t);
    OpenStep(env, t, p[next]);
    if n == 0 {
      NothingWithinNone(env, t, visiting, book);
    } else if !env[t].kind.Struct? {
      CycleExhausts(env, p, next, visiting, book, n - 1);
      OpenElement(env, t, visiting, book, n);
    } else {
      PropertiesExhaust(env, p, next, env[t].kind.fields, visiting, book, map[], n - 1);
      OpenStruct(env, t, visiting, book, n);
    }
  }

  lemma OpenStep(env: Types, t: TypeId, e: TypeId)
    requires InRange(env) && IsOpen(env, t) && e in Steps(env, t)
    ensures t < |env| && e < |env| && !IsLeaf(env, t)
    ensures !env[t].kind.Struct? ==> e == ElementOf(env, t)
    ensures env[t].kind.Struct? ==>
      && (forall f | f in env[t].kind.fields :: f.typ < |env|)
      && exists f :: f in env[t].kind.fields && !f.quoted && f.typ == e
  {
  }

  lemma NothingWithinNone(env: Types, t: TypeId, visiting: set<TypeId>, book: Book)
    requires InRange(env) && t < |env|
    ensures SchemaWithin(env, t, visiting, book, 0).None?
  {
  }

  lemma OpenElement(env: Types, t: TypeId, visiting: set<TypeId>, book: Book, n: nat)
    requires InRange(env) && IsOpen(env, t) && !env[t].kind.Struct? && n > 0
    requires SchemaWithin(env, ElementOf(env, t), visiting, book, n - 1).None?
    ensures SchemaWithin(env, t, visiting, book, n).None?
  {
  }

  lemma OpenStruct(env: Types, t: TypeId, visiting: set<TypeId>, book: Book, n: nat)
    requires InRange(env) && IsOpen(env, t) && env[t].kind.Struct? && n > 0
    requires PropertiesWithin(env, env[t].kind.fields, visiting, book, map[], n - 1).None?
    ensures SchemaWithin(env, t, visiting, book, n).None?
  {
  }

  lemma {:induction false} PropertiesExhaust(env: Types, p: seq<TypeId>, i: nat, fields: seq<JsonField>,
      visiting: set<TypeId>, book: Book, acc: map<string, Json>, n: nat)
    requires InRange(env) && IsOpenChain(env, p) && p[0] == p[|p| - 1] && i < |p| - 1
    requires (forall f | f in fields :: f.typ < |env|) && exists f :: f in fields && !f.quoted && f.typ == p[i]
    ensures PropertiesWithin(env, fields, visiting, book, acc, n).None?
    decreases n, |fields| + 1
  {
    var f :| f in fields && !f.quoted && f.typ == p[i];
    if fields[0] == f {
      CycleExhausts(env, p, i, visiting, book, n);
    } else if PropertyWithin(env, fields[0], visiting, book, n).Some? {
      var (s, book') := PropertyWithin(env, fields[0], visiting, book, n).value;
      assert f in fields[1..];
      PropertiesExhaust(env, p, i, fields[1..], visiting, book', acc[fields[0].name := s], n);
    }
  }

  // ---------------------------------------------------------------- and nothing else keeps it from ending

  /** The open types the recursion is inside of, since the last named struct: they lead to t. */
  ghost predicate Inside(env: Types, inside: set<TypeId>, t: TypeId)
    requires InRange(env)
  {
    forall u | u in inside :: u < |env| && OpenlyNeeds(env, u, t)
  }

  /** The first n types of a table. */
  ghost function FirstTypes(n: nat): (types: set<TypeId>)
    ensures forall t: TypeId :: t in types <==> t < n
  {
    if n == 0 then {} else FirstTypes(n - 1) + {n - 1}
  }

  lemma InsideMore(env: Types, inside: set<TypeId>, t: TypeId, e: TypeId)
    requires InRange(env) && Inside(env, inside, t) && IsOpen(env, t) && e in Steps(env, t)
    ensures Inside(env, inside + {t}, e)
  {
    hide Steps, IsOpen;
    forall u | u in inside + {t} ensures u < |env| && OpenlyNeeds(env, u, e) {
      if u in inside {
        var p :| IsOpenChain(env, p) && p[0] == u && p[|p| - 1] == t;
        var q := p + [e];
        assert IsOpenChain(env, q) && q[0] == u && q[|q| - 1] == e;
      } else {
        OpenType(env, t);
        var q := [t, e];
        assert IsOpenChain(env, q) && q[0] == t && q[|q| - 1] == e;
      }
    }
  }

  lemma OpenType(env: Types, t: TypeId)
    requires InRange(env) && IsOpen(env, t)
    ensures t < |env|
  {
  }

  /** Where every cycle passes a named struct, some bound is enough. */
  lemma {:induction false} Ends(env: Types, t: TypeId, visiting: set<TypeId>, book: Book, inside: set<TypeId>)
    returns (n: nat)
    requires InRange(env) && t < |env| && CyclesAreNamed(env) && Inside(env, inside, t)
    ensures SchemaWithin(env, t, visiting, book, n).Some?
    decreases Keys(env) - book.schemas.Keys, NamedStructs(env) - visiting, FirstTypes(|env|) - inside, 0
  {
    hide OpenlyNeeds, Steps;
    var ty := env[t];
    if IsLeaf(env, t) {
      n := 1;
    } else if IsOpen(env, t) {
      assert t in FirstTypes(|env|) - inside;
      if !ty.kind.Struct? {
        ElementInside(env, inside, t);
        n := Ends(env, ElementOf(env, t), visiting, book, inside + {t});
      } else {
        FieldsInside(env, inside, t);
        n := PropertiesEnd(env, ty.kind.fields, visiting, book, map[], inside + {t});
      }
      n := n + 1;
    } else if Hoisted(ty) {
      n := 1;
      if ty.qualified !in book.schemas {
        var key := ty.qualified;
        var started := Book(book.schemas[key := None], book.types[key := t], book.names[key := ty.component]);
        assert key in Keys(env) - book.schemas.Keys;
        n := PropertiesEnd(env, ty.kind.fields, {}, started, map[], {});
        n := n + 1;
      }
    } else if t in visiting {
      n := 1;
    } else {
      assert t in NamedStructs(env) - visiting;
      n := PropertiesEnd(env, ty.kind.fields, visiting + {t}, book, map[], {});
      n := n + 1;
    }
  }

  lemma ElementInside(env: Types, inside: set<TypeId>, t: TypeId)
    requires InRange(env) && Inside(env, inside, t) && IsOpen(env, t) && !env[t].kind.Struct?
    ensures Inside(env, inside + {t}, ElementOf(env, t))
  {
    InsideMore(env, inside, t, ElementOf(env, t));
  }

  lemma FieldsInside(env: Types, inside: set<TypeId>, t: TypeId)
    requires InRange(env) && Inside(env, inside, t) && IsOpen(env, t) && env[t].kind.Struct?
    ensures forall f | f in env[t].kind.fields && !f.quoted :: Inside(env, inside + {t}, f.typ)
  {
    hide Inside;
    forall f | f in env[t].kind.fields && !f.quoted ensures Inside(env, inside + {t}, f.typ) {
      InsideMore(env, inside, t, f.typ);
    }
  }

  lemma {:induction false} PropertiesEnd(env: Types, fields: seq<JsonField>, visiting: set<TypeId>, book: Book,
      acc: map<string, Json>, inside: set<TypeId>)
    returns (n: nat)
    requires InRange(env) && CyclesAreNamed(env) && forall f | f in fields :: f.typ < |env|
    requires forall f | f in fields && !f.quoted :: Inside(env, inside, f.typ)
    ensures PropertiesWithin(env, fields, visiting, book, acc, n).Some?
    decreases Keys(env) - book.schemas.Keys, NamedStructs(env) - visiting, FirstTypes(|env|) - inside, |fields| + 1
  {
    hide Inside, CyclesAreNamed, SchemaWithin;
    n := 0;
    if fields != [] {
      var f, first := fields[0], 0;
      if !f.quoted {
        first := Ends(env, f.typ, visiting, book, inside);
      }
      var (s, book') := PropertyWithin(env, f, visiting, book, first).value;
      assert Keys(env) - book'.schemas.Keys <= Keys(env) - book.schemas.Keys;
      var rest := PropertiesEnd(env, fields[1..], visiting, book', acc[f.name := s], inside);
      n := if first > rest then first else rest;
      if !f.quoted {
        MoreIsEnough(env, f.typ, visiting, book, first, n);
      }
      MoreForProperties(env, fields[1..], visiting, book', acc[f.name := s], rest, n);
    }
  }

  /** Some bound is enough to derive t first. */
  ghost predicate Derivable(env: Types, t: TypeId)
    requires InRange(env) && t < |env|
  {
    exists n: nat :: SchemaWithin(env, t, {}, NEW_BOOK, n).Some?
  }

  /** Derivation of every type of a table ends exactly when no type needs its own schema again without a
      named struct between. */
  lemma DerivationEnds(env: Types)
    requires InRange(env)
    ensures (forall t: TypeId | t < |env| :: Derivable(env, t)) <==> CyclesAreNamed(env)
  {
    hide SchemaWithin;
    if CyclesAreNamed(env) {
      forall t: TypeId | t < |env| ensures Derivable(env, t) {
        var n := Ends(env, t, {}, NEW_BOOK, {});
      }
    } else {
      var t: TypeId :| t < |env| && OpenlyNeeds(env, t, t);
      var p :| IsOpenChain(env, p) && p[0] == t && p[|p| - 1] == t;
      assert !Derivable(env, t) by {
        forall n: nat ensures SchemaWithin(env, t, {}, NEW_BOOK, n).None? {
          CycleExhausts(env, p, 0, {}, NEW_BOOK, n);
        }
      }
    }
  }

  /** On a finite table it ends, with the schema the deriver gives. */
  lemma FiniteEnds(env: Types, t: TypeId, visiting: set<TypeId>, book: Book) returns (n: nat)
    requires Finite(env) && t < |env|
    ensures CyclesAreNamed(env)
    ensures SchemaWithin(env, t, visiting, book, n) == Some(SchemaOf(env, t, visiting, book))
  {
    forall u: TypeId | u < |env| ensures !OpenlyNeeds(env, u, u) {
      if p :| IsOpenChain(env, p) && p[0] == u && p[|p| - 1] == u {
        OpenChainsFall(env, p);
        assert false;
      }
    }
    n := Ends(env, t, visiting, book, {});
    WithinIsSchemaOf(env, t, visiting, book, n);
  }

  lemma {:induction false} OpenChainsFall(env: Types, p: seq<TypeId>)
    requires Finite(env) && IsOpenChain(env, p)
    ensures p[|p| - 1] < p[0]
    decreases |p|
  {
    assert IsOpen(env, p[0]) && p[1] in Steps(env, p[0]);
    assert NeedsEarlier(env, p[0]);
    if |p| > 2 {
      OpenChainsFall(env, p[1..]);
    }
  }
}
