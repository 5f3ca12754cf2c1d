/** The numbered-suffix searches: a name, then the name with 2, 3, ... behind a separator, until one
    is unused. */
module Suffixes {

  function Digit(d: nat): char
    requires d < 10
  {
    ('0' as int + d) as char
  }

  /** strconv.Itoa on a natural number. */
  function Itoa(n: nat): (s: string)
    ensures s != ""
  {
    if n < 10 then [Digit(n)] else Itoa(n / 10) + [Digit(n % 10)]
  }

  /** The number a decimal text stands for. */
  function Decimal(s: string): int {
    if s == "" then 0 else 10 * Decimal(s[..|s| - 1]) + (s[|s| - 1] as int - '0' as int)
  }

  /** The text is the number in decimal, without leading zeros. */
  lemma {:induction false} ItoaIsDecimal(n: nat)
    ensures Decimal(Itoa(n)) == n && (forall i | 0 <= i < |Itoa(n)| :: '0' <= Itoa(n)[i] <= '9')
    ensures n > 0 ==> Itoa(n)[0] != '0'
    ensures n == 0 ==> Itoa(n) == "0"
  {
    var s := Itoa(n);
    if n < 10 {
      assert s[..0] == "";
    } else {
      ItoaIsDecimal(n / 10);
      assert s[..|s| - 1] == Itoa(n / 10);
    }
  }

  lemma {:induction false} ItoaInjective(m: nat, n: nat)
    requires Itoa(m) == Itoa(n)
    ensures m == n
  {
    var s, t := Itoa(m), Itoa(n);
    assert s[|s| - 1] == Digit(m % 10) && t[|t| - 1] == Digit(n % 10);
    if m >= 10 && n >= 10 {
      assert s[..|s| - 1] == Itoa(m / 10) && t[..|t| - 1] == Itoa(n / 10);
      ItoaInjective(m / 10, n / 10);
    }
  }

  /** The n-th name tried: the base itself, then base and separator followed by 2, 3, ... */
  function Numbered(base: string, sep: string, n: nat): string {
    if n < 2 then base else base + sep + Itoa(n)
  }

  /** The number in decimal, without leading zeros. */
  predicate WritesNumber(digits: string, n: nat) {
    && digits != "" && (forall i | 0 <= i < |digits| :: '0' <= digits[i] <= '9')
    && (digits[0] == '0' ==> digits == "0") && Decimal(digits) == n
  }

  /** A name, then the name with 2, 3, ... in decimal behind a separator. */
  lemma NumberedForms(base: string, sep: string, n: nat)
    requires n >= 1
    ensures n == 1 ==> Numbered(base, sep, n) == base
    ensures n >= 2 ==> exists digits :: WritesNumber(digits, n) && Numbered(base, sep, n) == base + sep + digits
  {
    ItoaIsDecimal(n);
    assert WritesNumber(Itoa(n), n);
  }

  lemma NumberedInjective(base: string, sep: string, m: nat, n: nat)
    requires sep != "" && 1 <= m && 1 <= n && Numbered(base, sep, m) == Numbered(base, sep, n)
    ensures m == n
  {
    if m >= 2 && n >= 2 {
      assert (base + sep + Itoa(m))[|base + sep|..] == Itoa(m);
      assert (base + sep + Itoa(n))[|base + sep|..] == Itoa(n);
      ItoaInjective(m, n);
    }
  }

  /** The first n names tried. */
  ghost function Tried(base: string, sep: string, n: nat): set<string> {
    if n == 0 then {} else Tried(base, sep, n - 1) + {Numbered(base, sep, n)}
  }

  lemma {:induction false} TriedAreDistinct(base: string, sep: string, n: nat)
    requires sep != ""
    ensures |Tried(base, sep, n)| == n
    ensures forall key | key in Tried(base, sep, n) :: exists i :: 1 <= i <= n && key == Numbered(base, sep, i)
  {
    if n > 0 {
      TriedAreDistinct(base, sep, n - 1);
      if Numbered(base, sep, n) in Tried(base, sep, n - 1) {
        var i :| 1 <= i <= n - 1 && Numbered(base, sep, n) == Numbered(base, sep, i);
        NumberedInjective(base, sep, n, i);
      }
    }
  }

  /** No more names can be taken than there are names in use: the search stops. */
  lemma TakenAreFew(base: string, sep: string, used: set<string>, n: nat)
    requires sep != "" && forall i | 1 <= i <= n :: Numbered(base, sep, i) in used
    ensures n <= |used|
  {
    TriedAreDistinct(base, sep, n);
    assert Tried(base, sep, n) <= used;
    SubsetSize(Tried(base, sep, n), used);
  }

  lemma {:induction false} SubsetSize<T>(a: set<T>, b: set<T>)
    requires a <= b
    ensures |a| <= |b|
    decreases a
  {
    if a != {} {
      var x :| x in a;
      SubsetSize(a - {x}, b - {x});
    }
  }

  /** The search from the n-th name on. */
  function UnusedFrom(base: string, sep: string, used: set<string>, n: nat): (key: string)
    requires sep != "" && 1 <= n && forall i | 1 <= i < n :: Numbered(base, sep, i) in used
    ensures key !in used
    decreases |used| + 1 - n
  {
    if Numbered(base, sep, n) !in used then Numbered(base, sep, n)
    else
      TakenAreFew(base, sep, used, n);
      UnusedFrom(base, sep, used, n + 1)
  }

  function Unused(base: string, sep: string, used: set<string>): (key: string)
    requires sep != ""
    ensures key !in used
  {
    UnusedFrom(base, sep, used, 1)
  }

  lemma {:induction false} UnusedFromIsNumbered(base: string, sep: string, used: set<string>, n: nat) returns (m: nat)
    requires sep != "" && 1 <= n && forall i | 1 <= i < n :: Numbered(base, sep, i) in used
    ensures n <= m && UnusedFrom(base, sep, used, n) == Numbered(base, sep, m)
    ensures forall i | 1 <= i < m :: Numbered(base, sep, i) in used
    decreases |used| + 1 - n
  {
    if Numbered(base, sep, n) in used {
      TakenAreFew(base, sep, used, n);
      m := UnusedFromIsNumbered(base, sep, used, n + 1);
    } else {
      m := n;
    }
  }

  /** The search always stops: after at most one more try than there are names in use it returns a name
      of the series that is unused, all names before it being in use. */
  lemma UnusedIsNumbered(base: string, sep: string, used: set<string>) returns (m: nat)
    requires sep != ""
    ensures 1 <= m <= |used| + 1 && Unused(base, sep, used) == Numbered(base, sep, m)
    ensures forall i | 1 <= i < m :: Numbered(base, sep, i) in used
  {
    m := UnusedFromIsNumbered(base, sep, used, 1);
    TakenAreFew(base, sep, used, m - 1);
  }

  /** There is only one such name. */
  lemma UnusedIsFirst(base: string, sep: string, used: set<string>, m: nat)
    requires sep != "" && 1 <= m && (forall i | 1 <= i < m :: Numbered(base, sep, i) in used)
    requires Numbered(base, sep, m) !in used
    ensures Unused(base, sep, used) == Numbered(base, sep, m)
  {
    var found := UnusedIsNumbered(base, sep, used);
    assert found == m;
  }
}
