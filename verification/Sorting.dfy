/** sort.SliceStable as a function, with the facts its callers rely on; and collecting results from a
    sequence, element by element. */
module Sorting {

  /** What a loop collects that appends f(x) for each x. */
  function FlatMap<T, U>(f: T -> seq<U>, s: seq<T>): seq<U> {
    if s == [] then [] else f(s[0]) + FlatMap(f, s[1..])
  }

  lemma {:induction false} FlatMapAppend<T, U>(f: T -> seq<U>, a: seq<T>, b: seq<T>)
    ensures FlatMap(f, a + b) == FlatMap(f, a) + FlatMap(f, b)
  {
    if a == [] {
      assert a + b == b;
    } else {
      assert (a + b)[1..] == a[1..] + b;
      FlatMapAppend(f, a[1..], b);
    }
  }

  lemma {:induction false} FlatMapElements<T, U>(f: T -> seq<U>, s: seq<T>, y: U)
    ensures y in FlatMap(f, s) <==> exists i :: 0 <= i < |s| && y in f(s[i])
  {
    if s != [] {
      FlatMapElements(f, s[1..], y);
      if y in FlatMap(f, s[1..]) {
        var i :| 0 <= i < |s[1..]| && y in f(s[1..][i]);
        assert y in f(s[i + 1]);
      }
      forall i | 0 < i < |s| && y in f(s[i]) ensures y in FlatMap(f, s[1..]) {
        assert s[1..][i - 1] == s[i];
      }
    }
  }

  lemma RemoveAt<T>(s: seq<T>, k: nat)
    requires k < |s|
    ensures multiset(s[..k] + s[k + 1..]) == multiset(s) - multiset{s[k]}
  {
    assert s == s[..k] + ([s[k]] + s[k + 1..]);
  }

  /** Where one element is collected does not matter. */
  lemma FlatMapAnywhere<T, U>(f: T -> seq<U>, s: seq<T>, i: nat)
    requires i < |s|
    ensures multiset(FlatMap(f, s)) == multiset(f(s[i])) + multiset(FlatMap(f, s[..i] + s[i + 1..]))
  {
    var x, after := s[i], s[i + 1..];
    assert s == s[..i] + ([x] + after);
    FlatMapAppend(f, s[..i], [x] + after);
    FlatMapAppend(f, s[..i], after);
    assert ([x] + after)[1..] == after;
  }

  lemma WithoutOne<T>(a: seq<T>, b: seq<T>, i: nat)
    requires a != [] && i < |b| && b[i] == a[0] && multiset(a) == multiset(b)
    ensures multiset(a[1..]) == multiset(b[..i] + b[i + 1..])
  {
    RemoveAt(b, i);
    var rest := a[1..];
    assert a == [a[0]] + rest;
    assert multiset(rest) == multiset(a) - multiset{a[0]};
  }

  /** Collecting from a rearranged sequence collects the same elements. */
  lemma {:induction false} FlatMapForgetsOrder<T, U>(f: T -> seq<U>, a: seq<T>, b: seq<T>)
    requires multiset(a) == multiset(b)
    ensures multiset(FlatMap(f, a)) == multiset(FlatMap(f, b))
  {
    if a == [] {
      assert |multiset(b)| == 0;
    } else {
      assert a[0] in multiset(b);
      var i :| 0 <= i < |b| && b[i] == a[0];
      WithoutOne(a, b, i);
      FlatMapForgetsOrder(f, a[1..], b[..i] + b[i + 1..]);
      FlatMapAnywhere(f, b, i);
    }
  }

  ghost predicate StrictWeakOrder<T(!new)>(less: (T, T) -> bool) {
    && (forall x :: !less(x, x))
    && (forall x, y, z :: less(x, y) && less(y, z) ==> less(x, z))
    && (forall x, y, z :: less(x, z) ==> less(x, y) || less(y, z))
  }

  ghost predicate Sorted<T>(s: seq<T>, less: (T, T) -> bool) {
    forall i, j :: 0 <= i < j < |s| ==> !less(s[j], s[i])
  }

  /** Puts x before the first element that is not smaller, so equal elements keep their order. */
  function Insert<T>(x: T, s: seq<T>, less: (T, T) -> bool): (r: seq<T>)
    ensures multiset(r) == multiset(s) + multiset{x}
  {
    if s == [] then [x]
    else if less(s[0], x) then
      assert s == [s[0]] + s[1..];
      [s[0]] + Insert(x, s[1..], less)
    else [x] + s
  }

  function StableSort<T>(s: seq<T>, less: (T, T) -> bool): (r: seq<T>)
    ensures multiset(r) == multiset(s)
  {
    if s == [] then []
    else
      assert s == [s[0]] + s[1..];
      Insert(s[0], StableSort(s[1..], less), less)
  }

  lemma {:induction false} InsertSorted<T(!new)>(x: T, s: seq<T>, less: (T, T) -> bool)
    requires StrictWeakOrder(less) && Sorted(s, less)
    ensures Sorted(Insert(x, s, less), less)
  {
    if s != [] && less(s[0], x) {
      InsertSorted(x, s[1..], less);
      var rest := Insert(x, s[1..], less);
      forall j | 0 <= j < |rest| ensures !less(rest[j], s[0]) {
        assert rest[j] in multiset(rest);
        assert rest[j] in multiset(s[1..]) || rest[j] == x;
      }
    }
  }

  lemma {:induction false} SortIsSorted<T(!new)>(s: seq<T>, less: (T, T) -> bool)
    requires StrictWeakOrder(less)
    ensures Sorted(StableSort(s, less), less)
  {
    if s != [] {
      SortIsSorted(s[1..], less);
      InsertSorted(s[0], StableSort(s[1..], less), less);
    }
  }

  lemma {:induction false} SortOfSorted<T>(s: seq<T>, less: (T, T) -> bool)
    requires Sorted(s, less)
    ensures StableSort(s, less) == s
  {
    if s != [] {
      SortOfSorted(s[1..], less);
    }
  }

  /** Elements the order cannot tell apart are equal. */
  ghost predicate Separates<T>(less: (T, T) -> bool, s: seq<T>) {
    forall x, y :: x in s && y in s && x != y ==> less(x, y) || less(y, x)
  }

  lemma {:induction false} SortedUnique<T(!new)>(a: seq<T>, b: seq<T>, less: (T, T) -> bool)
    requires Sorted(a, less) && Sorted(b, less)
    requires multiset(a) == multiset(b)
    requires Separates(less, a)
    ensures a == b
  {
    assert |multiset(a)| == |multiset(b)|;
    if a != [] {
      assert a[0] in multiset(b);
      assert b[0] in multiset(a);
      assert a[0] == b[0];
      assert a == [a[0]] + a[1..] && b == [b[0]] + b[1..];
      assert multiset(a[1..]) == multiset(a) - multiset{a[0]};
      assert multiset(b[1..]) == multiset(b) - multiset{b[0]};
      SortedUnique(a[1..], b[1..], less);
    }
  }

  /** Sorting forgets the order its input came in, whenever the order separates the elements. */
  lemma SortForgetsOrder<T(!new)>(a: seq<T>, b: seq<T>, less: (T, T) -> bool)
    requires StrictWeakOrder(less)
    requires multiset(a) == multiset(b)
    requires Separates(less, a)
    ensures StableSort(a, less) == StableSort(b, less)
  {
    SortIsSorted(a, less);
    SortIsSorted(b, less);
    var sa := StableSort(a, less);
    forall x | x in sa ensures x in a {
      assert x in multiset(sa);
    }
    SortedUnique(sa, StableSort(b, less), less);
  }

  function Each<T, U>(f: T -> U, s: seq<T>): seq<U> { seq(|s|, i requires 0 <= i < |s| => f(s[i])) }

  lemma {:induction false} EachCounts<T, U>(f: T -> U, s: seq<T>, x: T)
    requires forall y | y in s :: f(y) == f(x) ==> y == x
    ensures multiset(Each(f, s))[f(x)] == multiset(s)[x]
  {
    if s != [] {
      EachCounts(f, s[1..], x);
      assert s == [s[0]] + s[1..] && Each(f, s) == [f(s[0])] + Each(f, s[1..]);
    }
  }

  /** Mapped one to one, two sequences hold the same elements exactly when their images do. */
  lemma EachForgetsOrder<T(!new), U>(f: T -> U, a: seq<T>, b: seq<T>)
    requires forall x, y :: f(x) == f(y) ==> x == y
    ensures multiset(Each(f, a)) == multiset(Each(f, b)) <==> multiset(a) == multiset(b)
  {
    forall x ensures multiset(Each(f, a))[f(x)] == multiset(a)[x] && multiset(Each(f, b))[f(x)] == multiset(b)[x] {
      EachCounts(f, a, x);
      EachCounts(f, b, x);
    }
    var (fa, fb) := (Each(f, a), Each(f, b));
    if multiset(a) == multiset(b) {
      forall u | u in fa ensures multiset(fa)[u] == multiset(fb)[u] {
        assert f(Origin(f, a, u)) == u;
      }
      forall u | u in fb ensures multiset(fa)[u] == multiset(fb)[u] {
        assert f(Origin(f, b, u)) == u;
      }
      assert forall u :: multiset(fa)[u] == multiset(fb)[u];
    }
    if multiset(fa) == multiset(fb) {
      assert forall x :: multiset(a)[x] == multiset(b)[x];
    }
  }

  ghost function Origin<T(!new), U>(f: T -> U, s: seq<T>, u: U): (x: T)
    requires u in Each(f, s)
    ensures x in s && f(x) == u
  {
    var i :| 0 <= i < |s| && Each(f, s)[i] == u;
    s[i]
  }

  lemma {:induction false} InsertEach<T, U>(f: T -> U, x: T, s: seq<T>, less: (T, T) -> bool, less': (U, U) -> bool)
    requires forall y | y in s :: less'(f(y), f(x)) <==> less(y, x)
    ensures Each(f, Insert(x, s, less)) == Insert(f(x), Each(f, s), less')
  {
    if s != [] {
      assert Each(f, s)[1..] == Each(f, s[1..]);
      if less(s[0], x) {
        InsertEach(f, x, s[1..], less, less');
        assert Each(f, [s[0]] + Insert(x, s[1..], less)) == [f(s[0])] + Each(f, Insert(x, s[1..], less));
      }
    }
  }

  lemma SortedAreThere<T>(s: seq<T>, less: (T, T) -> bool)
    ensures forall y | y in StableSort(s, less) :: y in s
  {
    forall y | y in StableSort(s, less) ensures y in s {
      assert y in multiset(StableSort(s, less));
    }
  }

  /** Sorting what elements are mapped to, by an order that agrees, maps the sorted elements. */
  lemma {:induction false} SortEach<T, U>(f: T -> U, s: seq<T>, less: (T, T) -> bool, less': (U, U) -> bool)
    requires forall x, y | x in s && y in s :: less'(f(y), f(x)) <==> less(y, x)
    ensures Each(f, StableSort(s, less)) == StableSort(Each(f, s), less')
  {
    if s != [] {
      var rest, fs := StableSort(s[1..], less), Each(f, s);
      SortEach(f, s[1..], less, less');
      assert fs[1..] == Each(f, s[1..]) && fs[0] == f(s[0]);
      hide Each, Insert;
      assert StableSort(fs, less') == Insert(fs[0], StableSort(fs[1..], less'), less');
      SortedAreThere(s[1..], less);
      InsertEach(f, s[0], rest, less, less');
    }
  }

  /** The elements the order cannot tell from x, in order. */
  function Alongside<T>(x: T, s: seq<T>, less: (T, T) -> bool): seq<T> {
    FlatMap(y => if less(x, y) || less(y, x) then [] else [y], s)
  }

  lemma AlongsideFirst<T>(x: T, y: T, s: seq<T>, less: (T, T) -> bool)
    ensures Alongside(x, [y] + s, less) == (if less(x, y) || less(y, x) then [] else [y]) + Alongside(x, s, less)
  {
    assert ([y] + s)[1..] == s;
  }

  /** Of two elements in order, one can be told from x. */
  lemma SwapAlongside<T(!new)>(x: T, y: T, z: T, s: seq<T>, less: (T, T) -> bool)
    requires StrictWeakOrder(less) && less(z, y)
    ensures Alongside(x, [z] + ([y] + s), less) == Alongside(x, [y] + ([z] + s), less)
  {
    assert less(z, x) || less(x, y);
    hide Alongside, FlatMap, StrictWeakOrder;
    AlongsideFirst(x, z, [y] + s, less);
    AlongsideFirst(x, y, s, less);
    AlongsideFirst(x, y, [z] + s, less);
    AlongsideFirst(x, z, s, less);
  }

  lemma {:induction false} InsertStable<T(!new)>(x: T, y: T, s: seq<T>, less: (T, T) -> bool)
    requires StrictWeakOrder(less)
    ensures Alongside(x, Insert(y, s, less), less) == Alongside(x, [y] + s, less)
  {
    hide Alongside, FlatMap, StrictWeakOrder;
    if s != [] && less(s[0], y) {
      var rest := s[1..];
      InsertStable(x, y, rest, less);
      AlongsideFirst(x, s[0], Insert(y, rest, less), less);
      AlongsideFirst(x, s[0], [y] + rest, less);
      SwapAlongside(x, y, s[0], rest, less);
      assert s == [s[0]] + rest;
    } else {
      assert [y] + s == Insert(y, s, less);
    }
  }

  /** Sorting keeps the order of elements it cannot tell apart. */
  lemma {:induction false} SortIsStable<T(!new)>(x: T, s: seq<T>, less: (T, T) -> bool)
    requires StrictWeakOrder(less)
    ensures Alongside(x, StableSort(s, less), less) == Alongside(x, s, less)
  {
    hide Alongside, FlatMap;
    if s == [] {
    } else {
      SortIsStable(x, s[1..], less);
      InsertStable(x, s[0], StableSort(s[1..], less), less);
      AlongsideFirst(x, s[0], StableSort(s[1..], less), less);
      AlongsideFirst(x, s[0], s[1..], less);
      assert s == [s[0]] + s[1..];
    }
  }
}
