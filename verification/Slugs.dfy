/** operationSlug (asyncapi/asyncapi.go): a topic id as a bare identifier. */
module Slugs {
  import opened Strings

  predicate IsAlphanumeric(c: char) { 'a' <= c <= 'z' || 'A' <= c <= 'Z' || '0' <= c <= '9' }

  predicate IsRun(r: string) { r != "" && forall i | 0 <= i < |r| :: IsAlphanumeric(r[i]) }

  predicate AreRuns(runs: seq<string>) { forall i | 0 <= i < |runs| :: IsRun(runs[i]) }

  /** The maximal alphanumeric runs of a string, in order. */
  function Runs(s: string): (runs: seq<string>)
    ensures AreRuns(runs)
    ensures runs != [] ==> s != []
    ensures s != [] && IsAlphanumeric(s[|s| - 1]) ==> runs != []
  {
    if s == [] then []
    else
      var n := |s| - 1;
      var before := Runs(s[..n]);
      if !IsAlphanumeric(s[n]) then before
      else if n > 0 && IsAlphanumeric(s[n - 1]) then before[..|before| - 1] + [before[|before| - 1] + [s[n]]]
      else before + [[s[n]]]
  }

  /** The runs joined by single underscores; "" when there are none. */
  function Slug(s: string): string {
    if Runs(s) == [] then "" else Join(Runs(s), '_')
  }

  /** strings.Trim of one character. */
  function TrimLeft(s: string, c: char): string { if s != [] && s[0] == c then TrimLeft(s[1..], c) else s }

  function TrimRight(s: string, c: char): string {
    if s != [] && s[|s| - 1] == c then TrimRight(s[..|s| - 1], c) else s
  }

  function Trim(s: string, c: char): string { TrimRight(TrimLeft(s, c), c) }

  lemma JoinExtend(parts: seq<string>, c: char, sep: char)
    requires parts != []
    ensures var m := |parts| - 1; Join(parts[..m] + [parts[m] + [c]], sep) == Join(parts, sep) + [c]
  {
    var m := |parts| - 1;
    if m > 0 {
      JoinAppend(parts[..m], parts[m] + [c], sep);
      JoinAppend(parts[..m], parts[m], sep);
      assert parts == parts[..m] + [parts[m]];
    }
  }

  /** A joined list of non-empty alphanumeric runs starts and ends alphanumeric, and holds nothing but
      alphanumerics and the separator. */
  lemma {:induction false} JoinedRuns(runs: seq<string>)
    requires runs != [] && AreRuns(runs)
    ensures var s := Join(runs, '_');
      && s != "" && IsAlphanumeric(s[0]) && IsAlphanumeric(s[|s| - 1])
      && forall i | 0 <= i < |s| :: IsAlphanumeric(s[i]) || s[i] == '_'
    decreases |runs|
  {
    assert IsRun(runs[0]);
    if |runs| > 1 {
      JoinedRuns(runs[1..]);
    }
  }

  function Lead(s: string): string { if s != [] && !IsAlphanumeric(s[0]) then "_" else "" }

  function Trail(s: string): string { if Runs(s) != [] && !IsAlphanumeric(s[|s| - 1]) then "_" else "" }

  /** What the loop has written after reading s: the slug, an underscore before it when s starts outside
      a run, and one after it when s ends outside a run. */
  function Written(s: string): string { Lead(s) + Slug(s) + Trail(s) }

  lemma RunsStep(s: string, c: char)
    ensures Runs(s + [c]) ==
      if !IsAlphanumeric(c) then Runs(s)
      else if s != [] && IsAlphanumeric(s[|s| - 1]) then
        Runs(s)[..|Runs(s)| - 1] + [Runs(s)[|Runs(s)| - 1] + [c]]
      else Runs(s) + [[c]]
  {
    assert (s + [c])[..|s|] == s;
  }

  lemma SlugStep(s: string, c: char)
    requires IsAlphanumeric(c)
    ensures Runs(s + [c]) != [] && Slug(s + [c]) == Slug(s) + Trail(s) + [c]
  {
    var runs := Runs(s);
    RunsStep(s, c);
    if runs == [] {
      if s != [] {
        NoRuns(s);
      }
      assert Slug(s) + Trail(s) + [c] == [c];
    } else if IsAlphanumeric(s[|s| - 1]) {
      JoinExtend(runs, c, '_');
      assert Slug(s) + Trail(s) + [c] == Slug(s) + [c];
    } else {
      JoinAppend(runs, [c], '_');
    }
  }

  lemma LeadStep(s: string, c: char)
    ensures Lead(s + [c]) == if s == [] then (if IsAlphanumeric(c) then "" else "_") else Lead(s)
  {
    if s != [] {
      assert (s + [c])[0] == s[0];
    }
  }

  lemma TrailStep(s: string, c: char)
    ensures Trail(s + [c]) == if Runs(s) != [] && !IsAlphanumeric(c) then "_" else ""
  {
    RunsStep(s, c);
    assert (s + [c])[|s|] == c;
  }

  lemma Concatenate(lead: string, slug: string, trail: string, c: char)
    ensures lead + (slug + trail + [c]) + "" == lead + slug + trail + [c]
    ensures lead + slug + "" == lead + slug
  {
  }

  lemma WrittenStep(s: string, c: char)
    ensures Written(s + [c]) ==
      if IsAlphanumeric(c) then Written(s) + [c]
      else if s != [] && !IsAlphanumeric(s[|s| - 1]) then Written(s) else Written(s) + "_"
  {
    LeadStep(s, c);
    TrailStep(s, c);
    RunsStep(s, c);
    Concatenate(Lead(s), Slug(s), Trail(s), c);
    if s == [] {
      FirstWritten(c);
    } else if IsAlphanumeric(c) {
      SlugStep(s, c);
    } else {
      assert Slug(s + [c]) == Slug(s);
      if Runs(s) == [] {
        NoRuns(s);
      }
    }
    hide IsAlphanumeric, Runs, Slug, Lead;
  }

  lemma FirstWritten(c: char)
    ensures "" + [c] == [c] && Written("") == "" && Written([c]) == if IsAlphanumeric(c) then [c] else "_"
  {
    RunsStep("", c);
    assert "" + [c] == [c] && [] + [[c]] == [[c]];
  }

  lemma {:induction false} NoRuns(s: string)
    requires s != [] && Runs(s) == []
    ensures !IsAlphanumeric(s[0]) && !IsAlphanumeric(s[|s| - 1])
  {
    if |s| > 1 {
      NoRuns(s[..|s| - 1]);
    }
  }

  lemma TrimKeeps(lead: string, s: string, trail: string, c: char)
    requires s != "" && s[0] != c && s[|s| - 1] != c && (lead == "" || lead == [c]) && (trail == "" || trail == [c])
    ensures Trim(lead + s + trail, c) == s
  {
    var all := lead + s + trail;
    assert lead == "" ==> all == s + trail;
    assert lead == [c] ==> all[1..] == s + trail;
    assert TrimLeft(s + trail, c) == s + trail;
    assert TrimLeft(all, c) == s + trail;
    assert TrimRight(s, c) == s;
    assert trail == "" ==> s + trail == s;
    assert trail == [c] ==> (s + trail)[..|s + trail| - 1] == s;
  }

  lemma TrimWritten(s: string)
    ensures Trim(Written(s), '_') == Slug(s)
  {
    hide IsAlphanumeric;
    if Runs(s) != [] {
      JoinedRuns(Runs(s));
      UnderscoreIsNone();
      TrimKeeps(if !IsAlphanumeric(s[0]) then "_" else "", Slug(s),
                if !IsAlphanumeric(s[|s| - 1]) then "_" else "", '_');
    } else if s != [] {
      NoRuns(s);
      assert Written(s) == "_" + "" + "";
      assert Written(s) == "_";
      assert TrimLeft("_", '_') == TrimLeft("", '_') == "";
    }
  }

  lemma UnderscoreIsNone()
    ensures !IsAlphanumeric('_')
  {
  }

  /** The letters and digits of a string. */
  function Alphanumerics(s: string): string {
    if s == [] then ""
    else Alphanumerics(s[..|s| - 1]) + (if IsAlphanumeric(s[|s| - 1]) then [s[|s| - 1]] else "")
  }

  predicate NoDoubleUnderscore(s: string) { forall i | 0 <= i < |s| - 1 :: !(s[i] == '_' && s[i + 1] == '_') }

  lemma {:induction false} AlphanumericsAppend(s: string, t: string)
    ensures Alphanumerics(s + t) == Alphanumerics(s) + Alphanumerics(t)
    decreases |t|
  {
    if t == [] {
      assert s + t == s;
    } else {
      AlphanumericsAppend(s, t[..|t| - 1]);
      assert (s + t)[..|s + t| - 1] == s + t[..|t| - 1];
    }
  }

  lemma AlphanumericsStep(s: string, c: char)
    ensures Alphanumerics(s + [c]) == if IsAlphanumeric(c) then Alphanumerics(s) + [c] else Alphanumerics(s)
  {
    assert (s + [c])[..|s|] == s;
    assert Alphanumerics(s) + "" == Alphanumerics(s);
  }

  lemma {:induction false} SlugKeepsAlphanumerics(s: string)
    ensures Alphanumerics(Slug(s)) == Alphanumerics(s)
    decreases |s|
  {
    if s == "" {
      assert Slug("") == "";
    } else {
      var t, c := s[..|s| - 1], s[|s| - 1];
      assert t + [c] == s;
      SlugKeepsAlphanumerics(t);
      RunsStep(t, c);
      AlphanumericsStep(t, c);
      if IsAlphanumeric(c) {
        SlugStep(t, c);
        AlphanumericsStep(Slug(t) + Trail(t), c);
        AlphanumericsAppend(Slug(t), Trail(t));
        TrailHasNone(t);
        hide Slug, Trail, Alphanumerics, IsAlphanumeric, Runs;
        assert Alphanumerics(Slug(t)) + "" == Alphanumerics(Slug(t));
      } else {
        assert Slug(s) == Slug(t);
      }
    }
  }

  lemma TrailHasNone(s: string)
    ensures Alphanumerics(Trail(s)) == ""
  {
    UnderscoreIsNone();
    assert "_"[..0] == "";
  }

  lemma {:induction false} SlugSeparates(s: string)
    ensures NoDoubleUnderscore(Slug(s))
    decreases |s|
  {
    if s != "" {
      var t, c := s[..|s| - 1], s[|s| - 1];
      assert t + [c] == s;
      SlugSeparates(t);
      RunsStep(t, c);
      if IsAlphanumeric(c) {
        SlugStep(t, c);
        UnderscoreIsNone();
        if Runs(t) != [] {
          JoinedRuns(Runs(t));
        }
      }
    }
  }

  /** The slug drops everything but letters and digits, keeps these in order, and puts single
      underscores between some of them only: it never starts or ends with one. */
  lemma SlugIsIdentifier(s: string)
    ensures Alphanumerics(Slug(s)) == Alphanumerics(s)
    ensures Slug(s) != "" ==> IsAlphanumeric(Slug(s)[0]) && IsAlphanumeric(Slug(s)[|Slug(s)| - 1])
    ensures NoDoubleUnderscore(Slug(s))
    ensures forall i | 0 <= i < |Slug(s)| :: IsAlphanumeric(Slug(s)[i]) || Slug(s)[i] == '_'
  {
    SlugKeepsAlphanumerics(s);
    SlugSeparates(s);
    if Runs(s) != [] {
      JoinedRuns(Runs(s));
    }
  }

  method OperationSlug(topicId: string) returns (slug: string)
    ensures slug == Slug(topicId)
  {
    hide Written, Slug, Trim;
    var b := "";
    var lastUnderscore := false;
    var i := 0;
    FirstWritten('_');
    while i < |topicId|
      invariant 0 <= i <= |topicId| && b == Written(topicId[..i])
      invariant lastUnderscore <==> i > 0 && !IsAlphanumeric(topicId[i - 1])
    {
      var r := topicId[i];
      WrittenStep(topicId[..i], r);
      assert topicId[..i + 1] == topicId[..i] + [r];
      i := i + 1;
      if IsAlphanumeric(r) {
        b := b + [r];
        lastUnderscore := false;
        continue;
      }
      if !lastUnderscore {
        b := b + ['_'];
        lastUnderscore := true;
      }
    }
    assert topicId[..i] == topicId;
    TrimWritten(topicId);
    slug := Trim(b, '_');
  }

  // ---------------------------------------------------------------- where the underscores are

  predicate IsLetterOrDigit(c: char) { '0' <= c <= '9' || 'A' <= c <= 'Z' || 'a' <= c <= 'z' }

  /** gaps[0], runs[0], gaps[1], ..., runs[n - 1], gaps[n], one after the other. */
  function Woven(gaps: seq<string>, runs: seq<string>): string
    requires |gaps| == |runs| + 1
  {
    if runs == [] then gaps[0]
    else
      var n := |runs|; Woven(gaps[..n], runs[..n - 1]) + runs[n - 1] + gaps[n]
  }

  /** The runs are the stretches of letters and digits of s: between two of them is something else. */
  predicate AreStretches(gaps: seq<string>, runs: seq<string>, s: string) {
    && |gaps| == |runs| + 1 && s == Woven(gaps, runs)
    && (forall i | 0 <= i < |runs| :: runs[i] != "" && forall j | 0 <= j < |runs[i]| :: IsLetterOrDigit(runs[i][j]))
    && (forall i, j | 0 <= i < |gaps| && 0 <= j < |gaps[i]| :: !IsLetterOrDigit(gaps[i][j]))
    && (forall i | 0 < i < |runs| :: gaps[i] != "")
  }

  lemma LongerGap(gaps: seq<string>, runs: seq<string>, s: string, c: char)
    requires AreStretches(gaps, runs, s) && !IsLetterOrDigit(c)
    ensures var n := |runs|; AreStretches(gaps[..n] + [gaps[n] + [c]], runs, s + [c])
  {
    var n := |runs|;
    var after := gaps[..n] + [gaps[n] + [c]];
    assert after[..n] == gaps[..n];
    if n > 0 {
      var before := Woven(gaps[..n], runs[..n - 1]) + runs[n - 1];
      assert before + gaps[n] + [c] == before + (gaps[n] + [c]);
    }
  }

  lemma LongerRun(gaps: seq<string>, runs: seq<string>, s: string, c: char)
    requires AreStretches(gaps, runs, s) && IsLetterOrDigit(c) && runs != [] && gaps[|runs|] == ""
    ensures var n := |runs|; AreStretches(gaps, runs[..n - 1] + [runs[n - 1] + [c]], s + [c])
  {
    var n := |runs|;
    var after := runs[..n - 1] + [runs[n - 1] + [c]];
    assert after[..n - 1] == runs[..n - 1];
    var before := Woven(gaps[..n], runs[..n - 1]);
    assert before + runs[n - 1] + "" + [c] == before + (runs[n - 1] + [c]) + "";
  }

  lemma NewRun(gaps: seq<string>, runs: seq<string>, s: string, c: char)
    requires AreStretches(gaps, runs, s) && IsLetterOrDigit(c) && (runs != [] ==> gaps[|runs|] != "")
    ensures AreStretches(gaps + [""], runs + [[c]], s + [c])
  {
    var n := |runs|;
    assert (gaps + [""])[..n + 1] == gaps && (runs + [[c]])[..n] == runs;
    assert s + [c] + "" == s + [c];
  }

  lemma LastOfStretches(gaps: seq<string>, runs: seq<string>, s: string)
    requires AreStretches(gaps, runs, s)
    ensures runs == [] ==> gaps[0] == s
    ensures runs != [] ==> s != "" && (gaps[|runs|] == "" <==> IsLetterOrDigit(s[|s| - 1]))
  {
    if runs != [] {
      var n := |runs|;
      if gaps[n] == "" {
        assert s[|s| - 1] == runs[n - 1][|runs[n - 1]| - 1];
      } else {
        assert s[|s| - 1] == gaps[n][|gaps[n]| - 1];
      }
    }
  }

  /** A slug is the stretches of letters and digits joined by single underscores. */
  lemma {:induction false} SlugJoinsStretches(s: string) returns (gaps: seq<string>, runs: seq<string>)
    ensures AreStretches(gaps, runs, s) && Slug(s) == if runs == [] then "" else Join(runs, '_')
    ensures runs == Runs(s)
    decreases |s|
  {
    runs := Runs(s);
    if s == "" {
      gaps := [""];
    } else {
      var t, c := s[..|s| - 1], s[|s| - 1];
      var before, these := SlugJoinsStretches(t);
      var n := |these|;
      assert s == t + [c];
      RunsStep(t, c);
      LastOfStretches(before, these, t);
      hide AreStretches, Slug, Runs;
      if !IsAlphanumeric(c) {
        gaps := before[..n] + [before[n] + [c]];
        LongerGap(before, these, t, c);
      } else if these != [] && before[n] == "" {
        gaps := before;
        LongerRun(before, these, t, c);
      } else {
        gaps := before + [""];
        NewRun(before, these, t, c);
      }
    }
  }
}
