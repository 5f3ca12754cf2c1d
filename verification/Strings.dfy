/** The string functions the parsers use, with the facts that invert them. */
module Strings {

  function UpperChar(c: char): char { if 'a' <= c <= 'z' then (c as int - 32) as char else c }

  function LowerChar(c: char): char { if 'A' <= c <= 'Z' then (c as int + 32) as char else c }

  /** strings.ToUpper and strings.ToLower on the ASCII letters methods and parameter names are written in. */
  function Upper(s: string): string { seq(|s|, i requires 0 <= i < |s| => UpperChar(s[i])) }

  function Lower(s: string): string { seq(|s|, i requires 0 <= i < |s| => LowerChar(s[i])) }

  /** One character, or one ASCII letter in both cases. */
  predicate SameLetter(c: char, d: char) {
    || c == d
    || ('a' <= c <= 'z' && c as int - 'a' as int == d as int - 'A' as int)
    || ('A' <= c <= 'Z' && c as int - 'A' as int == d as int - 'a' as int)
  }

  /** Upper case has no small ASCII letter, and two texts agree in it exactly when they are spelled alike up to
      the case of theirs; so with lower case. */
  lemma CaseIsForgotten(s: string, t: string)
    ensures Upper(s) == Upper(t) <==> |s| == |t| && forall i | 0 <= i < |s| :: SameLetter(s[i], t[i])
    ensures Lower(s) == Lower(t) <==> |s| == |t| && forall i | 0 <= i < |s| :: SameLetter(s[i], t[i])
    ensures |Upper(s)| == |s| == |Lower(s)|
    ensures forall i | 0 <= i < |s| :: SameLetter(Upper(s)[i], s[i]) && !('a' <= Upper(s)[i] <= 'z')
    ensures forall i | 0 <= i < |s| :: SameLetter(Lower(s)[i], s[i]) && !('A' <= Lower(s)[i] <= 'Z')
  {
    if Upper(s) == Upper(t) {
      forall i | 0 <= i < |s| ensures SameLetter(s[i], t[i]) {
        assert Upper(s)[i] == Upper(t)[i];
      }
    }
    if Lower(s) == Lower(t) {
      forall i | 0 <= i < |s| ensures SameLetter(s[i], t[i]) {
        assert Lower(s)[i] == Lower(t)[i];
      }
    }
  }

  /** strings.Split on one character. */
  function Split(s: string, sep: char): (parts: seq<string>)
    ensures parts != []
    ensures forall p | p in parts :: sep !in p
  {
    if s == [] then [""]
    else
      var rest := Split(s[1..], sep);
      if s[0] == sep then [""] + rest else [[s[0]] + rest[0]] + rest[1..]
  }

  function Join(parts: seq<string>, sep: char): string
    requires parts != []
  {
    if |parts| == 1 then parts[0] else parts[0] + [sep] + Join(parts[1..], sep)
  }

  lemma {:induction false} JoinSplit(s: string, sep: char)
    ensures Join(Split(s, sep), sep) == s
  {
    if s != [] {
      JoinSplit(s[1..], sep);
      var rest := Split(s[1..], sep);
      if s[0] == sep {
        assert ([""] + rest)[1..] == rest;
      } else {
        assert ([[s[0]] + rest[0]] + rest[1..])[1..] == rest[1..];
      }
      assert s == [s[0]] + s[1..];
    }
  }

  lemma {:induction false} SplitNone(t: string, sep: char)
    requires sep !in t
    ensures Split(t, sep) == [t]
  {
    if t != [] {
      SplitNone(t[1..], sep);
      assert [t[0]] + t[1..] == t;
    }
  }

  /** l and r run together, where l's last part meets r's first. */
  ghost function Merged(l: seq<string>, r: seq<string>): seq<string>
    requires l != [] && r != []
  {
    l[..|l| - 1] + [l[|l| - 1] + r[0]] + r[1..]
  }

  lemma PrependLast(l: seq<string>, r: seq<string>, c: char)
    requires l != [] && r != []
    ensures Merged([""] + l, r) == [""] + Merged(l, r)
    ensures Merged([[c] + l[0]] + l[1..], r) == [[c] + Merged(l, r)[0]] + Merged(l, r)[1..]
  {
    var m := |l| - 1;
    assert ([""] + l)[..m + 1] == [""] + l[..m];
    if m == 0 {
      assert [c] + l[0] + r[0] == [c] + (l[0] + r[0]);
    } else {
      assert ([[c] + l[0]] + l[1..])[..m] == [[c] + l[0]] + l[1..m];
      assert Merged(l, r)[1..] == l[1..m] + [l[m] + r[0]] + r[1..];
    }
  }

  /** The parts of two strings run together. */
  lemma {:induction false} SplitConcat(a: string, b: string, sep: char)
    ensures Split(a + b, sep) == Merged(Split(a, sep), Split(b, sep))
  {
    if a == "" {
      assert a + b == b;
      assert "" + Split(b, sep)[0] == Split(b, sep)[0];
    } else {
      assert (a + b)[1..] == a[1..] + b && (a + b)[0] == a[0];
      SplitConcat(a[1..], b, sep);
      PrependLast(Split(a[1..], sep), Split(b, sep), a[0]);
    }
  }

  /** Text without the separator extends the last part. */
  lemma SplitExtends(s: string, t: string, sep: char)
    requires sep !in t
    ensures var parts := Split(s, sep);
      Split(s + t, sep) == parts[..|parts| - 1] + [parts[|parts| - 1] + t]
  {
    SplitConcat(s, t, sep);
    SplitNone(t, sep);
    hide Split;
    var parts := Split(s, sep);
    assert Merged(parts, [t]) == parts[..|parts| - 1] + [parts[|parts| - 1] + t];
  }

  /** A separator starts a new part. */
  lemma SplitAppends(s: string, t: string, sep: char)
    requires sep !in t
    ensures Split(s + [sep] + t, sep) == Split(s, sep) + [t]
  {
    SplitConcat(s, [sep] + t, sep);
    SplitFirst("", t, sep);
    SplitNone(t, sep);
    hide Split;
    assert "" + [sep] + t == [sep] + t && s + [sep] + t == s + ([sep] + t);
    var parts := Split(s, sep);
    assert parts[|parts| - 1] + "" == parts[|parts| - 1];
    assert Merged(parts, [""] + [t]) == parts + [t];
  }

  lemma {:induction false} JoinAppend(parts: seq<string>, last: string, sep: char)
    requires parts != []
    ensures Join(parts + [last], sep) == Join(parts, sep) + [sep] + last
    decreases |parts|
  {
    if |parts| > 1 {
      JoinAppend(parts[1..], last, sep);
      assert (parts + [last])[1..] == parts[1..] + [last];
    }
  }

  lemma {:induction false} SplitJoin(parts: seq<string>, sep: char)
    requires parts != [] && forall p | p in parts :: sep !in p
    ensures Split(Join(parts, sep), sep) == parts
    decreases |parts|
  {
    if |parts| == 1 {
      SplitNone(parts[0], sep);
    } else {
      SplitJoin(parts[1..], sep);
      SplitFirst(parts[0], Join(parts[1..], sep), sep);
      assert parts == [parts[0]] + parts[1..];
    }
  }

  lemma {:induction false} SplitFirst(p: string, rest: string, sep: char)
    requires sep !in p
    ensures Split(p + [sep] + rest, sep) == [p] + Split(rest, sep)
  {
    if p == [] {
      assert p + [sep] + rest == [sep] + rest;
      assert ([sep] + rest)[1..] == rest;
    } else {
      SplitFirst(p[1..], rest, sep);
      assert (p + [sep] + rest)[1..] == p[1..] + [sep] + rest;
      assert [p[0]] + p[1..] == p;
    }
  }

  datatype CutResult = CutResult(before: string, after: string, found: bool)

  /** strings.Cut at one character. */
  function Cut(s: string, sep: char): CutResult {
    if s == [] then CutResult("", "", false)
    else if s[0] == sep then CutResult("", s[1..], true)
    else
      var r := Cut(s[1..], sep);
      if r.found then CutResult([s[0]] + r.before, r.after, true) else CutResult(s, "", false)
  }

  lemma {:induction false} CutMeaning(s: string, sep: char)
    ensures sep !in Cut(s, sep).before
    ensures
      if Cut(s, sep).found then s == Cut(s, sep).before + [sep] + Cut(s, sep).after
      else Cut(s, sep).before == s && Cut(s, sep).after == "" && sep !in s
  {
    if s != [] && s[0] != sep {
      CutMeaning(s[1..], sep);
      assert s == [s[0]] + s[1..];
    }
  }

  lemma {:induction false} CutAt(before: string, sep: char, after: string)
    requires sep !in before
    ensures Cut(before + [sep] + after, sep) == CutResult(before, after, true)
  {
    var s := before + [sep] + after;
    if before == [] {
      assert s[1..] == after;
    } else {
      assert s[1..] == before[1..] + [sep] + after;
      CutAt(before[1..], sep, after);
      assert [before[0]] + before[1..] == before;
    }
  }

  lemma {:induction false} CutNone(s: string, sep: char)
    requires sep !in s
    ensures Cut(s, sep) == CutResult(s, "", false)
  {
    if s != [] {
      CutNone(s[1..], sep);
    }
  }

  /** strings.ReplaceAll of a two-character pattern by one character. */
  function ReplacePair(s: string, a: char, b: char, to: char): string {
    if s == [] then ""
    else if |s| >= 2 && s[0] == a && s[1] == b then [to] + ReplacePair(s[2..], a, b, to)
    else [s[0]] + ReplacePair(s[1..], a, b, to)
  }

  /** strings.ReplaceAll of one character by a string. */
  function ReplaceChar(s: string, a: char, to: string): string {
    if s == [] then "" else (if s[0] == a then to else [s[0]]) + ReplaceChar(s[1..], a, to)
  }

  lemma {:induction false} ReplaceCharAppend(s: string, t: string, a: char, to: string)
    ensures ReplaceChar(s + t, a, to) == ReplaceChar(s, a, to) + ReplaceChar(t, a, to)
  {
    if s == [] {
      assert s + t == t;
    } else {
      assert (s + t)[1..] == s[1..] + t;
      ReplaceCharAppend(s[1..], t, a, to);
    }
  }
}
