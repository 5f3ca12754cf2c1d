/** sort.Strings, and the one sorted listing of a set of names: how the source makes what it read from
    a map, in arbitrary order, independent of that order. */
module SortedNames {
  import opened Sorting
  import Utf16

  function CodePoints(s: string): seq<int> { seq(|s|, i requires 0 <= i < |s| => s[i] as int) }

  /** The byte order of UTF-8 is the order of code points. */
  predicate CodePointLess(a: string, b: string) { Utf16.LexLess(CodePoints(a), CodePoints(b)) }

  lemma CodePointsInjective(a: string, b: string)
    requires CodePoints(a) == CodePoints(b)
    ensures a == b
  {
    assert |a| == |CodePoints(a)| == |b|;
    forall i | 0 <= i < |a| ensures a[i] == b[i] {
      assert CodePoints(a)[i] == CodePoints(b)[i];
    }
  }

  lemma CodePointLessIsOrder()
    ensures StrictWeakOrder(CodePointLess)
    ensures forall x, y :: x != y ==> CodePointLess(x, y) || CodePointLess(y, x)
  {
    forall x, y, z
      ensures !CodePointLess(x, x)
      ensures CodePointLess(x, y) && CodePointLess(y, z) ==> CodePointLess(x, z)
      ensures CodePointLess(x, z) ==> CodePointLess(x, y) || CodePointLess(y, z)
      ensures x != y ==> CodePointLess(x, y) || CodePointLess(y, x)
    {
      StrictTotal(x, x, x);
      StrictTotal(x, y, z);
      StrictTotal(y, x, z);
      StrictTotal(y, z, x);
    }
  }

  lemma StrictTotal(a: string, b: string, c: string)
    ensures !(CodePointLess(a, b) && CodePointLess(b, a))
    ensures a != b <==> CodePointLess(a, b) || CodePointLess(b, a)
    ensures CodePointLess(a, b) && CodePointLess(b, c) ==> CodePointLess(a, c)
  {
    Utf16.LexTotal(CodePoints(a), CodePoints(b));
    if CodePoints(a) == CodePoints(b) { CodePointsInjective(a, b); }
    if CodePointLess(a, b) && CodePointLess(b, c) {
      Utf16.LexTransitive(CodePoints(a), CodePoints(b), CodePoints(c));
    }
  }

  /** Each name of s once. */
  ghost predicate Lists(q: seq<string>, s: set<string>) {
    && (forall x :: x in q <==> x in s)
    && (forall i, j | 0 <= i < j < |q| :: q[i] != q[j])
  }

  lemma ListOneMore(q: seq<string>, s: set<string>, x: string)
    requires Lists(q, s) && x !in s
    ensures Lists(q + [x], s + {x})
  {
  }

  ghost predicate IsSortedListing(q: seq<string>, s: set<string>) {
    Lists(q, s) && Sorted(q, CodePointLess)
  }

  lemma TailLists(q: seq<string>, s: set<string>)
    requires Lists(q, s) && q != []
    ensures Lists(q[1..], s - {q[0]})
  {
    assert q == [q[0]] + q[1..];
    forall x ensures x in q[1..] <==> x in s - {q[0]} {
      if x in s - {q[0]} { assert x in q; }
      if x in q[1..] { var j :| 0 <= j < |q[1..]| && q[1..][j] == x; assert q[j + 1] == x; }
    }
    forall i, j | 0 <= i < j < |q[1..]| ensures q[1..][i] != q[1..][j] {
      assert q[1..][i] == q[i + 1] && q[1..][j] == q[j + 1];
    }
  }

  lemma {:induction false} ListsMultiset(q: seq<string>, s: set<string>)
    requires Lists(q, s)
    ensures multiset(q) == multiset(s)
  {
    if q == [] {
      assert forall x :: x !in s;
      assert s == {};
    } else {
      assert q == [q[0]] + q[1..];
      TailLists(q, s);
      ListsMultiset(q[1..], s - {q[0]});
      assert s == (s - {q[0]}) + {q[0]};
    }
  }

  /** A set has one sorted listing. */
  lemma SortedListingUnique(p: seq<string>, q: seq<string>, s: set<string>)
    requires IsSortedListing(p, s) && IsSortedListing(q, s)
    ensures p == q
  {
    ListsMultiset(p, s);
    ListsMultiset(q, s);
    CodePointLessIsOrder();
    SortedUnique(p, q, CodePointLess);
  }

  lemma {:induction false} NoRepeats(q: seq<string>, s: set<string>)
    requires multiset(q) <= multiset(s)
    ensures forall i, j | 0 <= i < j < |q| :: q[i] != q[j]
  {
    if q != [] {
      assert q == [q[0]] + q[1..];
      assert multiset(q[1..]) <= multiset(s);
      NoRepeats(q[1..], s);
      forall j | 0 < j < |q| ensures q[j] != q[0] {
        assert q[j] == q[1..][j - 1];
        assert q[j] in multiset(q[1..]);
        assert multiset(q)[q[0]] <= 1;
      }
    }
  }

  /** Sorting any listing gives it. */
  lemma SortGivesListing(q: seq<string>, s: set<string>)
    requires Lists(q, s)
    ensures IsSortedListing(StableSort(q, CodePointLess), s)
  {
    CodePointLessIsOrder();
    SortIsSorted(q, CodePointLess);
    ListsMultiset(q, s);
    var r := StableSort(q, CodePointLess);
    forall x ensures x in r <==> x in s {
      assert x in multiset(r) <==> x in multiset(s);
    }
    NoRepeats(r, s);
  }

  /** The sorted listing of a set. */
  ghost function SortedListing(s: set<string>): (q: seq<string>)
    ensures IsSortedListing(q, s)
  {
    ListingExists(s);
    var q :| IsSortedListing(q, s);
    q
  }

  lemma {:induction false} ListingExists(s: set<string>)
    ensures exists q :: IsSortedListing(q, s)
  {
    var q := AnyListing(s);
    SortGivesListing(q, s);
  }

  ghost function AnyListing(s: set<string>): (q: seq<string>)
    ensures Lists(q, s)
  {
    if s == {} then []
    else
      var x :| x in s;
      [x] + AnyListing(s - {x})
  }

  lemma LeastIsFirst(s: set<string>)
    requires SortedListing(s) != []
    ensures var l := SortedListing(s); l[0] in s && forall x | x in s && x != l[0] :: CodePointLess(l[0], x)
  {
    var l := SortedListing(s);
    CodePointLessIsOrder();
    assert l[0] in l;
    forall x | x in s && x != l[0] ensures CodePointLess(l[0], x) {
      assert x in l;
    }
  }

  /** The first name in sorted order. */
  ghost function Least(s: set<string>): (m: string)
    requires s != {}
    ensures m in s && forall x | x in s && x != m :: CodePointLess(m, x)
  {
    assert exists x :: x in s;
    assert SortedListing(s) != [] by {
      var x :| x in s;
      assert x in SortedListing(s);
    }
    LeastIsFirst(s);
    SortedListing(s)[0]
  }
}
