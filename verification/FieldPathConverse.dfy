/** A pointer that comes back from its dotted path has tokens that keep their identity: the condition of
    FieldPathLaws is exact. */
module FieldPathConverse {
  import opened Strings
  import opened FieldPaths
  import opened FieldPathLaws

  // ---------------------------------------------------------------- a pointer determines its tokens

  /** Every string is some token: unescaping undoes escaping. */
  lemma {:induction false} UnescapeEscape(token: string)
    ensures WellFormedToken(Escape(token)) && Unescape(Escape(token)) == token
    decreases |token|
  {
    if token != [] {
      var c, rest := token[0], token[1..];
      UnescapeEscape(rest);
      assert token == [c] + rest;
      EscapeCons(c, rest);
      var raw := Escape(token);
      if c == '~' || c == '/' {
        assert raw[0] == '~' && raw[2..] == Escape(rest);
      } else {
        assert raw[0] == c && raw[1..] == Escape(rest);
      }
      UnescapeSteps(raw);
    }
  }

  lemma {:induction false} NoSlash(raw: string)
    requires WellFormedToken(raw)
    ensures '/' !in raw
    decreases |raw|
  {
    if raw != [] {
      if raw[0] == '~' {
        NoSlash(raw[2..]);
        assert raw == [raw[0], raw[1]] + raw[2..];
      } else {
        NoSlash(raw[1..]);
        assert raw == [raw[0]] + raw[1..];
      }
    }
  }

  function Escaped(tokens: seq<string>): seq<string> {
    seq(|tokens|, i requires 0 <= i < |tokens| => Escape(tokens[i]))
  }

  lemma {:induction false} PointerIsJoin(tokens: seq<string>)
    requires tokens != []
    ensures Pointer(tokens) == "/" + Join(Escaped(tokens), '/')
    decreases |tokens|
  {
    var n := |tokens| - 1;
    if n > 0 {
      PointerIsJoin(tokens[..n]);
      JoinAppend(Escaped(tokens[..n]), Escape(tokens[n]), '/');
      assert Escaped(tokens) == Escaped(tokens[..n]) + [Escape(tokens[n])];
    }
  }

  /** The tokens of the pointer made of some tokens are these. */
  lemma TokensOfPointer(tokens: seq<string>)
    requires tokens != []
    ensures Pointer(tokens) != "" && Tokens(Pointer(tokens)) == tokens
  {
    PointerIsJoin(tokens);
    assert Pointer(tokens)[1..] == Join(Escaped(tokens), '/');
    forall i | 0 <= i < |tokens| ensures '/' !in Escaped(tokens)[i] && Unescape(Escaped(tokens)[i]) == tokens[i] {
      UnescapeEscape(tokens[i]);
      NoSlash(Escape(tokens[i]));
    }
    SplitJoin(Escaped(tokens), '/');
  }

  ghost predicate WellFormed(pointer: string) {
    pointer == "" || (pointer[0] == '/' && forall r | r in Split(pointer[1..], '/') :: WellFormedToken(r))
  }

  /** A well-formed pointer is the one made of its tokens. */
  lemma PointerOfTokens(pointer: string)
    requires WellFormed(pointer) && pointer != ""
    ensures Pointer(Tokens(pointer)) == pointer
  {
    var raws := Split(pointer[1..], '/');
    forall i | 0 <= i < |raws| ensures Escape(Tokens(pointer)[i]) == raws[i] {
      assert raws[i] in raws;
      EscapeUnescape(raws[i]);
    }
    assert Escaped(Tokens(pointer)) == raws;
    PointerIsJoin(Tokens(pointer));
    JoinSplit(pointer[1..], '/');
  }

  // ---------------------------------------------------------------- a dotted path is no pointer

  /** Length, less two for every "[". */
  ghost function Weight(s: string): int {
    if s == "" then 0 else Weight(s[..|s| - 1]) + if s[|s| - 1] == '[' then -1 else 1
  }

  lemma {:induction false} WeightAppend(s: string, t: string)
    ensures Weight(s + t) == Weight(s) + Weight(t)
    decreases |t|
  {
    if t == "" {
      assert s + t == s;
    } else {
      assert (s + t)[..|s + t| - 1] == s + t[..|t| - 1];
      WeightAppend(s, t[..|t| - 1]);
    }
  }

  lemma {:induction false} EscapeIsHeavier(t: string)
    ensures Weight(Escape(t)) >= Weight(t)
  {
    if t != "" {
      EscapeIsHeavier(t[1..]);
      assert t == [t[0]] + t[1..];
      EscapeCons(t[0], t[1..]);
      WeightAppend([t[0]], t[1..]);
      WeightAppend(if t[0] == '~' then "~0" else if t[0] == '/' then "~1" else [t[0]], Escape(t[1..]));
    }
  }

  lemma OneStepWeight(dotted: string, t: string)
    ensures Weight(AddToken(dotted, t)) <= Weight(dotted) + Weight(t) + if dotted == "" then 0 else 1
  {
    if IsIndex(t) {
      WeightAppend(dotted + "[" + t, "]");
      WeightAppend(dotted + "[", t);
      WeightAppend(dotted, "[");
    } else if dotted == "" {
      assert dotted + t == t;
    } else {
      WeightAppend(dotted + ".", t);
      WeightAppend(dotted, ".");
    }
  }

  /** A dotted path is lighter than its pointer, so never the pointer itself. */
  lemma {:induction false} DottedIsLighter(tokens: seq<string>)
    requires tokens != []
    ensures Weight(Dotted(tokens)) < Weight(Pointer(tokens))
    decreases |tokens|
  {
    hide Weight, AddToken;
    var n := |tokens| - 1;
    var t, before := tokens[n], tokens[..n];
    OneStepWeight(Dotted(before), t);
    EscapeIsHeavier(t);
    WeightAppend(Pointer(before) + "/", Escape(t));
    WeightAppend(Pointer(before), "/");
    SlashWeight();
    if before != [] {
      DottedIsLighter(before);
    }
  }

  lemma SlashWeight()
    ensures Weight("/") == 1 && Weight("") == 0
  {
  }

  // ---------------------------------------------------------------- what parsing can return

  /** No "." and no "]" behind the first "[". */
  predicate IsResult(t: string) { '.' !in t && ']' !in Cut(t, '[').after }

  predicate AreResults(tokens: seq<string>) { forall i | 0 <= i < |tokens| :: IsResult(tokens[i]) }

  lemma {:induction false} CutExtends(s: string, more: string)
    ensures Cut(s, '[').found ==> Cut(s + more, '[').after == Cut(s, '[').after + more
    ensures !Cut(s, '[').found ==> Cut(s + ['['] + more, '[').after == more && '[' !in s
  {
    if s != [] {
      assert (s + more)[1..] == s[1..] + more && (s + ['['] + more)[1..] == s[1..] + ['['] + more;
      CutExtends(s[1..], more);
      assert s == [s[0]] + s[1..];
    }
  }

  lemma {:induction false} AfterIsPart(s: string, sep: char)
    ensures forall c | c in Cut(s, sep).after :: c in s
    ensures forall c | c in Cut(s, sep).before :: c in s
    ensures sep !in Cut(s, sep).before
    ensures !Cut(s, sep).found <==> sep !in s
  {
    if s != [] {
      AfterIsPart(s[1..], sep);
      assert s == [s[0]] + s[1..];
    }
  }

  lemma VerbatimResult(last: string, rest: string)
    requires IsResult(last) && '.' !in rest && ']' !in rest
    ensures IsResult(last + "[" + rest)
  {
    CutExtends(last, "[" + rest);
    CutExtends(last, rest);
    assert last + ("[" + rest) == last + "[" + rest;
    assert last + ['['] + rest == last + "[" + rest;
  }

  lemma PlainResult(t: string)
    requires '.' !in t && (']' !in t || '[' !in t)
    ensures IsResult(t)
  {
    AfterIsPart(t, '[');
    if '[' !in t {
      CutNone(t, '[');
    }
  }

  lemma {:induction false} IndexResults(tokens: seq<string>, rest: string)
    requires AreResults(tokens) && '.' !in rest
    ensures AreResults(AddIndexes(tokens, rest))
    decreases |rest|
  {
    hide IsResult;
    if rest != "" {
      var cut := Cut(rest, ']');
      AfterIsPart(rest, ']');
      CutShortens(rest, ']');
      if cut.found {
        PlainResult(cut.before);
        IndexResults(tokens + [cut.before], TrimBracket(cut.after));
      } else if tokens == [] {
        PlainResult("");
        VerbatimResult("", rest);
      } else {
        VerbatimResult(tokens[|tokens| - 1], rest);
      }
    }
  }

  lemma {:induction false} PartResults(parts: seq<string>)
    requires forall i | 0 <= i < |parts| :: '.' !in parts[i]
    ensures AreResults(AddParts(parts))
    decreases |parts|
  {
    hide IsResult;
    if parts != [] {
      var n := |parts| - 1;
      PartResults(parts[..n]);
      var cut := Cut(parts[n], '[');
      AfterIsPart(parts[n], '[');
      PlainResult(cut.before);
      IndexResults(
        if cut.before != "" || cut.after == "" then AddParts(parts[..n]) + [cut.before] else AddParts(parts[..n]),
        cut.after);
    }
  }

  predicate NoEmptyBrackets(s: string) { forall i | 0 <= i < |s| - 1 :: !(s[i] == '[' && s[i + 1] == ']') }

  /** Something stands behind the first "[", if there is one. */
  predicate NotOpen(t: string) { '[' in t ==> Cut(t, '[').after != "" }

  predicate NoneOpen(tokens: seq<string>) { forall i | 0 <= i < |tokens| :: NotOpen(tokens[i]) }

  lemma NotOpenUnlessLast(t: string)
    requires t != "" ==> t[|t| - 1] != '['
    ensures NotOpen(t)
  {
    if '[' in t {
      CutMeaning(t, '[');
    }
  }

  lemma VerbatimNotOpen(last: string, rest: string)
    requires NotOpen(last) && rest != ""
    ensures NotOpen(last + "[" + rest)
  {
    CutExtends(last, "[" + rest);
    CutExtends(last, rest);
    AfterIsPart(last, '[');
    assert last + ("[" + rest) == last + "[" + rest;
    assert last + ['['] + rest == last + "[" + rest;
  }

  lemma CutNotOpen(rest: string)
    requires NoEmptyBrackets(rest) && ']' in rest
    ensures NotOpen(Cut(rest, ']').before) && NoEmptyBrackets(TrimBracket(Cut(rest, ']').after))
  {
    hide NotOpen;
    var cut := Cut(rest, ']');
    CutMeaning(rest, ']');
    hide Cut;
    assert rest[|cut.before|] == ']';
    assert cut.before != "" ==> rest[|cut.before| - 1] == cut.before[|cut.before| - 1];
    NotOpenUnlessLast(cut.before);
    NoneInRest(rest, |cut.before| + 1, cut.after);
  }

  lemma NoneInRest(s: string, n: nat, after: string)
    requires NoEmptyBrackets(s) && n <= |s| && after == s[n..]
    ensures NoEmptyBrackets(after) && NoEmptyBrackets(TrimBracket(after))
  {
    forall i | 0 <= i < |after| - 1 ensures !(after[i] == '[' && after[i + 1] == ']') {
      assert after[i] == s[n + i] && after[i + 1] == s[n + i + 1];
    }
  }

  lemma {:induction false} IndexesNotOpen(tokens: seq<string>, rest: string)
    requires NoneOpen(tokens) && NoEmptyBrackets(rest)
    ensures NoneOpen(AddIndexes(tokens, rest))
    decreases |rest|
  {
    hide NotOpen, NoEmptyBrackets;
    if rest != "" {
      var cut := Cut(rest, ']');
      CutShortens(rest, ']');
      AfterIsPart(rest, ']');
      if cut.found {
        CutNotOpen(rest);
        IndexesNotOpen(tokens + [cut.before], TrimBracket(cut.after));
      } else if tokens == [] {
        OpenIfEmpty();
        VerbatimNotOpen("", rest);
      } else {
        VerbatimNotOpen(tokens[|tokens| - 1], rest);
      }
    }
  }

  lemma OpenIfEmpty()
    ensures NotOpen("")
  {
  }

  lemma NotOpenWithout(t: string)
    requires '[' !in t
    ensures NotOpen(t)
  {
  }

  lemma {:induction false} PartsNotOpen(parts: seq<string>)
    requires forall i | 0 <= i < |parts| :: NoEmptyBrackets(parts[i])
    ensures NoneOpen(AddParts(parts))
    decreases |parts|
  {
    hide NotOpen;
    if parts != [] {
      var n := |parts| - 1;
      PartsNotOpen(parts[..n]);
      var cut := Cut(parts[n], '[');
      AfterIsPart(parts[n], '[');
      NotOpenWithout(cut.before);
      if cut.found {
        CutMeaning(parts[n], '[');
        assert forall i | 0 <= i < |cut.after| :: cut.after[i] == parts[n][|cut.before| + 1 + i];
      } else {
        CutNone(parts[n], '[');
      }
      IndexesNotOpen(
        if cut.before != "" || cut.after == "" then AddParts(parts[..n]) + [cut.before] else AddParts(parts[..n]),
        cut.after);
    }
  }

  lemma ResultHasNone(t: string)
    requires IsResult(t)
    ensures NoEmptyBrackets(t)
  {
    if '[' in t {
      CutMeaning(t, '[');
      var cut := Cut(t, '[');
      forall i | 0 <= i < |t| - 1 ensures !(t[i] == '[' && t[i + 1] == ']') {
        if i >= |cut.before| {
          assert t[i + 1] == cut.after[i - |cut.before|];
        } else {
          assert t[i] == cut.before[i];
        }
      }
    }
  }

  lemma {:induction false} DottedHasNone(tokens: seq<string>)
    requires AreResults(tokens)
    ensures NoEmptyBrackets(Dotted(tokens))
    decreases |tokens|
  {
    hide IsResult;
    if tokens != [] {
      var n := |tokens| - 1;
      DottedHasNone(tokens[..n]);
      ResultHasNone(tokens[n]);
    }
  }

  lemma {:induction false} PartsHaveNone(s: string)
    requires NoEmptyBrackets(s)
    ensures forall i | 0 <= i < |Split(s, '.')| :: NoEmptyBrackets(Split(s, '.')[i])
    ensures s != "" && s[0] != '.' ==> Split(s, '.')[0] != "" && Split(s, '.')[0][0] == s[0]
    ensures s == "" || s[0] == '.' ==> Split(s, '.')[0] == ""
  {
    if s != [] {
      PartsHaveNone(s[1..]);
    }
  }

  // ---------------------------------------------------------------- what later text cannot undo

  /** later keeps the tokens of now, except that it may extend the last one. */
  ghost predicate Extends(now: seq<string>, later: seq<string>) {
    && now != [] && |now| <= |later|
    && later[..|now| - 1] == now[..|now| - 1]
    && now[|now| - 1] <= later[|now| - 1]
  }

  lemma ExtendsTransitive(a: seq<string>, b: seq<string>, c: seq<string>)
    requires Extends(a, b) && Extends(b, c)
    ensures Extends(a, c)
  {
    var n := |a| - 1;
    assert forall i | 0 <= i < n :: a[i] == a[..n][i] == b[..n][i] == b[i];
    assert forall i | 0 <= i < |b| - 1 :: b[i] == b[..|b| - 1][i] == c[..|b| - 1][i] == c[i];
    assert c[..n] == a[..n];
  }

  lemma {:induction false} IndexesExtend(tokens: seq<string>, rest: string)
    requires tokens != []
    ensures Extends(tokens, AddIndexes(tokens, rest))
    decreases |rest|
  {
    if rest != "" {
      var cut := Cut(rest, ']');
      CutShortens(rest, ']');
      if cut.found {
        IndexesExtend(tokens + [cut.before], TrimBracket(cut.after));
        assert Extends(tokens, tokens + [cut.before]);
        ExtendsTransitive(tokens, tokens + [cut.before], AddIndexes(tokens, rest));
      }
    }
  }

  lemma PartExtends(tokens: seq<string>, part: string)
    requires tokens != []
    ensures Extends(tokens, AddPart(tokens, part))
  {
    hide AddIndexes;
    var cut := Cut(part, '[');
    IndexesExtend(tokens, cut.after);
    IndexesExtend(tokens + [cut.before], cut.after);
    assert Extends(tokens, tokens + [cut.before]);
    ExtendsTransitive(tokens, tokens + [cut.before], AddIndexes(tokens + [cut.before], cut.after));
  }

  lemma {:induction false} PartsExtend(parts: seq<string>, n: nat)
    requires n <= |parts| && AddParts(parts[..n]) != []
    ensures Extends(AddParts(parts[..n]), AddParts(parts))
    decreases |parts|
  {
    hide AddPart;
    if n == |parts| {
      assert parts[..n] == parts;
    } else {
      var m := |parts| - 1;
      assert parts[..m][..n] == parts[..n];
      PartsExtend(parts[..m], n);
      PartExtends(AddParts(parts[..m]), parts[m]);
      ExtendsTransitive(AddParts(parts[..n]), AddParts(parts[..m]), AddParts(parts));
    }
  }

  /** What a token adds to a dotted path that is not empty. */
  function Added(t: string): string { if IsIndex(t) then "[" + t + "]" else "." + t }

  lemma AddedText(dotted: string, t: string)
    requires dotted != ""
    ensures AddToken(dotted, t) == dotted + Added(t)
    ensures IsIndex(t) ==> Added(t) == "[" + t + "]" + ""
  {
  }

  lemma MoreText(a: string, b: string, c: string)
    ensures a + b + c == a + (b + c)
  {
  }

  /** What follows the first k tokens in the dotted path of all of them. */
  lemma {:induction false} Follow(tokens: seq<string>, k: nat) returns (more: string, beyond: string)
    requires 0 < k <= |tokens| && Dotted(tokens[..k]) != ""
    ensures Dotted(tokens) == Dotted(tokens[..k]) + more
    ensures if k == |tokens| then more == ""
      else if IsIndex(tokens[k]) then more == "[" + tokens[k] + "]" + beyond
      else more == "." + beyond
    decreases |tokens|
  {
    more, beyond := "", "";
    if k == |tokens| {
      assert tokens[..k] == tokens;
    } else {
      var m := |tokens| - 1;
      var t := tokens[m];
      assert tokens[..m][..k] == tokens[..k];
      more, beyond := Follow(tokens[..m], k);
      var added := Added(t);
      AddedText(Dotted(tokens[..m]), t);
      hide IsIndex, AddToken;
      if k == m {
        more, beyond := added, if IsIndex(t) then "" else t;
        assert Dotted(tokens[..k]) + "" == Dotted(tokens[..k]);
      } else {
        MoreText(Dotted(tokens[..k]), more, added);
        if IsIndex(tokens[k]) {
          MoreText("[" + tokens[k] + "]", beyond, added);
        } else {
          MoreText(".", beyond, added);
        }
        more, beyond := more + added, beyond + added;
      }
    }
  }

  // ---------------------------------------------------------------- every violation shows

  /** How the parts of a dotted path divide behind its first k tokens: the last of their parts goes on
      with the indexes that follow. */
  lemma Divide(tokens: seq<string>, k: nat)
    returns (before: seq<string>, last: string, after: seq<string>, index: string, w: string)
    requires 0 < k <= |tokens| && Dotted(tokens[..k]) != ""
    requires k < |tokens| && IsIndex(tokens[k]) ==> '.' !in tokens[k]
    ensures Split(Dotted(tokens[..k]), '.') == before + [last]
    ensures Split(Dotted(tokens), '.') == before + [last + Next(IndexAt(tokens, k), index, w)] + after
    ensures IndexAt(tokens, k) ==> IsIndex(index)
  {
    var more, beyond := Follow(tokens, k);
    var l, r := Split(Dotted(tokens[..k]), '.'), Split(more, '.');
    SplitConcat(Dotted(tokens[..k]), more, '.');
    before, last, after, index, w := l[..|l| - 1], l[|l| - 1], r[1..], "", "";
    assert l == before + [last];
    if k < |tokens| && IsIndex(tokens[k]) {
      index, w := tokens[k], Split(beyond, '.')[0];
      var brackets := "[" + index + "]";
      SplitConcat(brackets, beyond, '.');
      SplitNone(brackets, '.');
      assert Merged([brackets], Split(beyond, '.'))[0] == brackets + w;
    } else if k < |tokens| {
      assert more[0] == '.';
    }
  }

  predicate IndexAt(tokens: seq<string>, k: nat) { k < |tokens| && IsIndex(tokens[k]) }

  /** How a part goes on behind a token. */
  function Next(indexFollows: bool, index: string, w: string): string {
    if indexFollows then "[" + index + "]" + w else ""
  }

  /** Parsing all parts keeps what parsing up to the divided part gives. */
  lemma DivideExtends(before: seq<string>, part: string, after: seq<string>)
    requires AddPart(AddParts(before), part) != []
    ensures Extends(AddPart(AddParts(before), part), AddParts(before + [part] + after))
  {
    hide AddPart;
    var all := before + [part] + after;
    assert all[..|before| + 1] == before + [part];
    assert (before + [part])[..|before|] == before;
    PartsExtend(all, |before| + 1);
  }

  lemma ExtendsAt(now: seq<string>, later: seq<string>, i: nat)
    requires Extends(now, later) && i < |now| - 1
    ensures later[i] == now[i]
  {
    assert now[..|now| - 1][i] == later[..|now| - 1][i];
  }

  /** Nothing that extends these tokens is made of the earlier ones, then t: the last earlier token has
      grown, or something else stands where t should. */
  ghost predicate Conflicts(now: seq<string>, earlier: seq<string>, t: string) {
    var n := |earlier|;
    || (|now| == n > 0 && !(now[n - 1] <= earlier[n - 1]))
    || (|now| == n + 1 && !(now[n] <= t))
    || (|now| == n + 2 && now[n] != t)
  }

  /** Token t, read behind the earlier ones, shows in the result as something else, whatever follows. */
  ghost predicate Shows(earlier: seq<string>, t: string, read: seq<string>) {
    exists now :: Conflicts(now, earlier, t) && Extends(now, read)
  }

  lemma ShowsDiffers(earlier: seq<string>, t: string, read: seq<string>, tokens: seq<string>)
    requires Shows(earlier, t, read) && |tokens| > |earlier| && tokens[|earlier|] == t
    requires forall i | 0 <= i < |earlier| :: tokens[i] == earlier[i]
    ensures !Extends(read, tokens)
  {
    var now :| Conflicts(now, earlier, t) && Extends(now, read);
    if Extends(read, tokens) {
      ExtendsTransitive(now, read, tokens);
      if |now| == |earlier| + 2 {
        ExtendsAt(now, tokens, |earlier|);
      }
    }
  }

  /** A token with "[" that stands behind earlier tokens without a name. */
  lemma NamelessShows(earlier: seq<string>, t: string)
    requires earlier != [] && '[' in t && Cut(t, '[').before == ""
    requires Cut(t, '[').after != "" && ']' !in Cut(t, '[').after
    ensures AddPart(earlier, t) != [] && Shows(earlier, t, AddPart(earlier, t))
  {
    CutMeaning(t, '[');
    var rest := Cut(t, '[').after;
    NameParsed(earlier, "", rest);
    VerbatimParsed(earlier, rest);
    hide AddPart, AddIndexes, Cut;
    assert t == "" + ['['] + rest;
    var now := AddPart(earlier, t);
    assert now[|now| - 1] == earlier[|earlier| - 1] + "[" + rest;
    assert Conflicts(now, earlier, t);
    assert Extends(now, now);
  }

  lemma IndexedParsed(earlier: seq<string>, name: string, after: string, index: string, w: string)
    requires '[' !in name && ']' !in after && IsIndex(index)
    ensures AddPart(earlier, name + ['['] + after + ("[" + index + "]" + w))
         == AddIndexes(Named(earlier, name) + [after + "[" + index], TrimBracket(w))
  {
    hide AddPart, AddIndexes, Cut;
    var first := after + "[" + index;
    assert ']' !in index;
    assert ']' !in first;
    var rest := first + [']'] + w;
    assert name + ['['] + after + ("[" + index + "]" + w) == name + ['['] + rest;
    NameParsed(earlier, name, rest);
    OneIndexParsed(Named(earlier, name), first, w);
  }

  /** A token with "[" that an index follows. */
  lemma IndexedShows(earlier: seq<string>, t: string, index: string, w: string)
    requires '[' in t && ']' !in Cut(t, '[').after && IsIndex(index)
    ensures var part := t + ("[" + index + "]" + w);
      AddPart(earlier, part) != [] && Shows(earlier, t, AddPart(earlier, part))
  {
    CutMeaning(t, '[');
    var name, after := Cut(t, '[').before, Cut(t, '[').after;
    hide AddPart, AddIndexes, Cut, TrimBracket;
    IndexedParsed(earlier, name, after, index, w);
    var first := after + "[" + index;
    var now := Named(earlier, name) + [first];
    IndexesExtend(now, TrimBracket(w));
    hide Extends;
    if name == "" {
      assert |first| > |t|;
      assert Conflicts(now, earlier, t);
    } else {
      assert now[|earlier|] == name && name != t;
      assert Conflicts(now, earlier, t);
    }
  }

  /** An empty token that an index follows. */
  lemma EmptyShows(earlier: seq<string>, index: string, w: string)
    requires IsIndex(index)
    ensures var part := "" + ("[" + index + "]" + w);
      AddPart(earlier, part) != [] && Shows(earlier, "", AddPart(earlier, part))
  {
    hide AddPart, AddIndexes;
    var rest := index + [']'] + w;
    assert "" + ("[" + index + "]" + w) == "" + ['['] + rest;
    assert ']' !in index;
    NameParsed(earlier, "", rest);
    OneIndexParsed(earlier, index, w);
    IndexesExtend(earlier + [index], TrimBracket(w));
    assert Conflicts(earlier + [index], earlier, "");
  }

  /** Any token that does not keep its identity shows, whatever follows it. */
  lemma ViolationShows(earlier: seq<string>, t: string, indexFollows: bool, index: string, w: string)
    requires IsResult(t) && NotOpen(t) && !Keeps(t, earlier == [], indexFollows)
    requires indexFollows ==> IsIndex(index)
    ensures var part := t + Next(indexFollows, index, w);
      AddPart(earlier, part) != [] && Shows(earlier, t, AddPart(earlier, part))
  {
    hide Shows, AddPart;
    assert t + "" == t;
    if t == "" {
      EmptyShows(earlier, index, w);
    } else if indexFollows {
      IndexedShows(earlier, t, index, w);
    } else {
      NamelessShows(earlier, t);
    }
  }

  lemma FirstIndexPart(t: string, next: string)
    requires IsIndex(t)
    ensures Extends([t], AddPart([], AddToken("", t) + next))
  {
    assert ']' !in t;
    hide AddPart, AddIndexes, IsIndex;
    var rest := t + [']'] + next;
    assert AddToken("", t) + next == "" + ['['] + rest;
    NameParsed([], "", rest);
    OneIndexParsed([], t, next);
    assert [] + [t] == [t];
    IndexesExtend([t], TrimBracket(next));
  }

  lemma FirstNamePart(t: string, indexFollows: bool, index: string, w: string)
    requires t != "" && '[' !in t && (indexFollows ==> IsIndex(index))
    ensures Extends([t], AddPart([], t + Next(indexFollows, index, w)))
  {
    hide AddPart, AddIndexes, IsIndex;
    if indexFollows {
      var rest := index + [']'] + w;
      assert t + Next(indexFollows, index, w) == t + ['['] + rest;
      NameParsed([], t, rest);
      assert [] + [t] == [t];
      IndexesExtend([t], rest);
    } else {
      assert t + Next(indexFollows, index, w) == t;
      GroupParsed([], t, []);
      assert [] + [t] == [t];
    }
  }

  /** What a part's first token starts with is never empty. */
  lemma FirstPart(t: string, indexFollows: bool, index: string, w: string) returns (now: seq<string>)
    requires t != "" && IsResult(t) && NotOpen(t) && (indexFollows ==> IsIndex(index))
    ensures var part := AddToken("", t) + Next(indexFollows, index, w);
      now != [] && now[0] != "" && Extends(now, AddPart([], part))
  {
    hide AddPart, IsResult, NotOpen, Next, Extends;
    if IsIndex(t) {
      now := [t];
      FirstIndexPart(t, Next(indexFollows, index, w));
    } else {
      assert AddToken("", t) == t;
      if '[' !in t {
        now := [t];
        FirstNamePart(t, indexFollows, index, w);
      } else {
        now := FirstBracketPart(t, indexFollows, index, w);
      }
    }
  }

  lemma FirstBracketPart(t: string, indexFollows: bool, index: string, w: string) returns (now: seq<string>)
    requires '[' in t && IsResult(t) && NotOpen(t) && (indexFollows ==> IsIndex(index))
    ensures var part := t + Next(indexFollows, index, w);
      now != [] && now[0] != "" && Extends(now, AddPart([], part))
  {
    CutMeaning(t, '[');
    var name, after := Cut(t, '[').before, Cut(t, '[').after;
    assert ']' !in after && after != "";
    hide AddPart, AddIndexes, Cut, IsResult, NotOpen;
    if indexFollows {
      IndexedParsed([], name, after, index, w);
      now := Named([], name) + [after + "[" + index];
      IndexesExtend(now, TrimBracket(w));
    } else {
      assert t + "" == name + ['['] + after;
      NameParsed([], name, after);
      VerbatimParsed(Named([], name), after);
      now := AddPart([], t);
      assert t + "" == t;
      assert Extends(now, now);
    }
  }

  lemma {:induction false} EmptyPrefix(tokens: seq<string>)
    requires forall i | 0 <= i < |tokens| :: tokens[i] == ""
    ensures Dotted(tokens) == ""
  {
    if tokens != [] {
      EmptyPrefix(tokens[..|tokens| - 1]);
    }
  }

  /** A list that comes back starts with a token that is not empty. */
  lemma FirstNotEmpty(tokens: seq<string>, j: nat)
    requires j < |tokens| && tokens[j] != "" && forall i | 0 <= i < j :: tokens[i] == ""
    requires AreResults(tokens) && NoneOpen(tokens)
    requires AddParts(Split(Dotted(tokens), '.')) == tokens
    ensures tokens[0] != ""
  {
    var t := tokens[j];
    assert IsResult(t) && NotOpen(t);
    var whole := AddToken("", t);
    FirstText(tokens, j);
    hide *;
    var follows := IndexAt(tokens, j + 1);
    assert follows ==> '.' !in tokens[j + 1] by { IndexHasNoDot(tokens, j + 1); }
    WholeIsNotEmpty(t);
    FollowedBy(tokens, j + 1);
    var before, last, after, index, w := Divide(tokens, j + 1);
    assert |before + [last]| == 1;
    assert before == [] && last == (before + [last])[0] == whole;
    var now := FirstPart(t, follows, index, w);
    NoParts();
    var part := last + Next(follows, index, w);
    ExtendsNotEmpty(now, AddPart([], part));
    DivideExtends(before, part, after);
    ExtendsTransitive(now, AddPart([], part), tokens);
    FirstStays(now, tokens);
  }

  lemma FirstText(tokens: seq<string>, j: nat)
    requires j < |tokens| && '.' !in tokens[j] && forall i | 0 <= i < j :: tokens[i] == ""
    ensures var whole := AddToken("", tokens[j]);
      Dotted(tokens[..j + 1]) == whole && Split(whole, '.') == [whole]
  {
    hide Split;
    EmptyPrefix(tokens[..j]);
    assert tokens[..j + 1][..j] == tokens[..j];
    SplitNone(AddToken("", tokens[j]), '.');
  }

  lemma WholeIsNotEmpty(t: string)
    requires t != ""
    ensures AddToken("", t) != ""
  {
  }

  lemma IndexHasNoDot(tokens: seq<string>, k: nat)
    ensures IndexAt(tokens, k) ==> '.' !in tokens[k]
  {
  }

  lemma FollowedBy(tokens: seq<string>, k: nat)
    ensures IndexAt(tokens, k) <==> k < |tokens| && IsIndex(tokens[k])
  {
  }

  lemma ExtendsNotEmpty(now: seq<string>, later: seq<string>)
    requires Extends(now, later)
    ensures now != [] && later != []
  {
  }

  lemma FirstStays(now: seq<string>, later: seq<string>)
    requires Extends(now, later) && now[0] != ""
    ensures later[0] != ""
  {
    if |now| > 1 {
      ExtendsAt(now, later, 0);
    }
  }

  lemma NoParts()
    ensures AddParts([]) == []
  {
  }

  lemma ResultNoDot(t: string)
    requires IsResult(t)
    ensures '.' !in t
  {
  }

  ghost predicate KeepUpTo(tokens: seq<string>, k: nat)
    requires k <= |tokens|
  {
    tokens != [] && tokens[0] != "" && tokens[0][0] != '/' && forall j: nat | j < k :: KeepsAt(tokens, j)
  }

  /** If the earlier tokens keep their identity and the next does not, the list does not come back. */
  lemma ViolationDiffers(tokens: seq<string>, k: nat)
    requires k < |tokens| && KeepUpTo(tokens, k) && !KeepsAt(tokens, k)
    requires IsResult(tokens[k]) && NotOpen(tokens[k])
    ensures AddParts(Split(Dotted(tokens), '.')) != tokens
  {
    var t, earlier := tokens[k], tokens[..k];
    var follows := IndexAt(tokens, k + 1);
    assert !Keeps(t, earlier == [], follows);
    IndexKeeps(t, k == 0, follows);
    DottedStart(tokens[..k + 1]);
    ResultNoDot(t);
    hide AddParts, Dotted, Split, Keeps, KeepsAt, IsResult, NotOpen, AddPart, Next, Extends, Shows;
    var before, last, after, index, w := Divide(tokens, k + 1);
    NewPart(tokens, k, before, last);
    ViolationShows(earlier, t, follows, index, w);
    var part := t + Next(follows, index, w);
    DivideExtends(before, part, after);
    ShowsDiffers(earlier, t, AddPart(earlier, part), tokens);
  }

  lemma IndexKeeps(t: string, first: bool, indexFollows: bool)
    ensures IsIndex(t) ==> Keeps(t, first, indexFollows)
  {
    if IsIndex(t) {
      assert '.' !in t && '[' !in t;
    }
  }

  /** A token that is no index starts a part of its own. */
  lemma NewPart(tokens: seq<string>, k: nat, before: seq<string>, last: string)
    requires k < |tokens| && KeepUpTo(tokens, k)
    requires !IsIndex(tokens[k]) && '.' !in tokens[k]
    requires Split(Dotted(tokens[..k + 1]), '.') == before + [last]
    ensures last == tokens[k] && AddParts(before) == tokens[..k]
  {
    var t, earlier := tokens[k], tokens[..k];
    assert tokens[..k + 1][..k] == earlier;
    if k == 0 {
      assert Dotted(tokens[..1]) == t;
      SplitNone(t, '.');
      assert before + [last] == [t];
      assert |before| == 0 && last == (before + [last])[0];
    } else {
      PrefixRoundTrips(tokens, k);
      TokensComeBack(earlier);
      SplitAppends(Dotted(earlier), t, '.');
      assert Dotted(tokens[..k + 1]) == Dotted(earlier) + ['.'] + t;
      var parts := Split(Dotted(earlier), '.');
      assert before + [last] == parts + [t];
      assert |before| == |parts| && (before + [last])[..|before|] == (parts + [t])[..|parts|];
      assert last == (before + [last])[|before|] == (parts + [t])[|parts|];
    }
  }

  /** Only lists whose tokens keep their identity come back. */
  lemma ComesBackOnlyIf(tokens: seq<string>)
    requires tokens != [] && Dotted(tokens) != "" && Dotted(tokens)[0] != '/'
    requires AddParts(Split(Dotted(tokens), '.')) == tokens
    ensures RoundTrips(tokens)
  {
    hide AddParts, IsResult, NotOpen, NoEmptyBrackets, Keeps, Split, Dotted;
    PartResults(Split(Dotted(tokens), '.'));
    DottedHasNone(tokens);
    PartsHaveNone(Dotted(tokens));
    PartsNotOpen(Split(Dotted(tokens), '.'));
    if forall i | 0 <= i < |tokens| :: tokens[i] == "" {
      EmptyPrefix(tokens);
    }
    var j := FirstNonEmpty(tokens);
    FirstNotEmpty(tokens, j);
    DottedStart(tokens);
    for k := 0 to |tokens|
      invariant KeepUpTo(tokens, k)
    {
      if !KeepsAt(tokens, k) {
        ViolationDiffers(tokens, k);
      }
    }
  }

  lemma {:induction false} FirstNonEmpty(tokens: seq<string>) returns (j: nat)
    requires exists i :: 0 <= i < |tokens| && tokens[i] != ""
    ensures j < |tokens| && tokens[j] != "" && forall i | 0 <= i < j :: tokens[i] == ""
  {
    j := 0;
    while tokens[j] == ""
      invariant j < |tokens| && forall i | 0 <= i < j :: tokens[i] == ""
      decreases |tokens| - j
    {
      j := j + 1;
    }
  }

  /** A well-formed pointer turned into a dotted path and back is the original exactly when its tokens
      keep their identity - in particular whenever they are not empty, have no "." or "[", and the
      first does not start with "/". */
  lemma PointerRoundTrip(pointer: string)
    requires WellFormed(pointer) && pointer != ""
    ensures PointerPath(DottedPath(pointer)) == pointer <==> RoundTrips(Tokens(pointer))
  {
    var tokens := Tokens(pointer);
    PointerOfTokens(pointer);
    DottedIsLighter(tokens);
    var dotted := Dotted(tokens);
    if RoundTrips(tokens) {
      TokensComeBack(tokens);
      DottedStart(tokens);
    }
    if PointerPath(dotted) == pointer {
      var back := AddParts(Split(dotted, '.'));
      assert Pointer(back) == pointer && back != [];
      TokensOfPointer(back);
      ComesBackOnlyIf(tokens);
    }
  }

  /** The plain case. */
  lemma PlainPointerRoundTrip(pointer: string)
    requires WellFormed(pointer)
    requires pointer != "" ==>
      Tokens(pointer)[0] != "" && Tokens(pointer)[0][0] != '/'
      && forall t | t in Tokens(pointer) :: t != "" && '.' !in t && '[' !in t
    ensures PointerPath(DottedPath(pointer)) == pointer
  {
    if pointer != "" {
      forall k: nat | k < |Tokens(pointer)| ensures KeepsAt(Tokens(pointer), k) {
        assert Tokens(pointer)[k] in Tokens(pointer);
      }
      PointerRoundTrip(pointer);
    }
  }

  /** An empty first name is lost: the field "a" of a field "" comes back as the field "a". */
  lemma EmptyNameIsLost()
    ensures WellFormed("//a") && PointerPath(DottedPath("//a")) == "/a"
  {
    var tokens := ["", "a"];
    PointersOfA();
    DottedOfA();
    hide Pointer, Dotted, AddParts, Split;
    TokensOfPointer(tokens);
    EscapedIsWellFormed(tokens);
  }

  lemma PointersOfA()
    ensures Pointer(["", "a"]) == "//a" && Pointer(["a"]) == "/a"
  {
    EscapeOfA();
    hide Escape;
    assert [""][..0] == [] && ["", "a"][..1] == [""] && ["a"][..0] == [];
    assert Pointer([""]) == "" + "/" + "" == "/";
    assert Pointer(["", "a"]) == "/" + "/" + "a" == "//a";
    assert Pointer(["a"]) == "" + "/" + "a" == "/a";
  }

  lemma DottedOfA()
    ensures Dotted(["", "a"]) == "a" && Split("a", '.') == ["a"] && AddParts(["a"]) == ["a"]
  {
    SplitNone("a", '.');
    assert [""][..0] == [] && ["", "a"][..1] == [""];
    assert Dotted([""]) == "";
    GroupParsed([], "a", []);
    assert AddParts([]) == [];
  }

  lemma EscapeOfA()
    ensures Escape("") == "" && Escape("a") == "a"
  {
    assert "a"[1..] == "";
    assert ReplaceChar("a", '~', "~0") == "a";
  }

  lemma EscapedIsWellFormed(tokens: seq<string>)
    requires tokens != []
    ensures WellFormed(Pointer(tokens))
  {
    PointerIsJoin(tokens);
    assert Pointer(tokens)[1..] == Join(Escaped(tokens), '/');
    forall i | 0 <= i < |tokens| ensures WellFormedToken(Escaped(tokens)[i]) && '/' !in Escaped(tokens)[i] {
      UnescapeEscape(tokens[i]);
      NoSlash(Escape(tokens[i]));
    }
    SplitJoin(Escaped(tokens), '/');
  }
}
