/** Which JSON Pointers come back from their dotted path: an exact condition on their tokens. */
module FieldPathLaws {
  import opened Strings
  import opened FieldPaths

  /** A token that keeps its identity in a dotted path, given whether it is the first one and whether an
      index follows: it has no "."; when empty, no index follows; and what it has behind its first "["
      is not empty, has no "]", is followed by no index, and stands behind a name unless the token is
      the first. */
  predicate Keeps(t: string, first: bool, indexFollows: bool) {
    && '.' !in t
    && (t == "" ==> !indexFollows)
    && ('[' in t ==>
          var cut := Cut(t, '[');
          cut.after != "" && ']' !in cut.after && !indexFollows && (cut.before != "" || first))
  }

  predicate KeepsAt(tokens: seq<string>, k: nat)
    requires k < |tokens|
  {
    Keeps(tokens[k], k == 0, k + 1 < |tokens| && IsIndex(tokens[k + 1]))
  }

  /** The pointers that come back: every token keeps its identity, and the first is not empty and does
      not start with "/". */
  ghost predicate RoundTrips(tokens: seq<string>) {
    && tokens != [] && tokens[0] != "" && tokens[0][0] != '/'
    && forall k: nat | k < |tokens| :: KeepsAt(tokens, k)
  }

  // ---------------------------------------------------------------- parsing one part

  /** "[i1][i2]...". */
  function Brackets(indexes: seq<string>): string {
    if indexes == [] then "" else "[" + indexes[0] + "]" + Brackets(indexes[1..])
  }

  lemma {:induction false} BracketsAppend(indexes: seq<string>, index: string)
    ensures Brackets(indexes + [index]) == Brackets(indexes) + "[" + index + "]"
  {
    if indexes == [] {
      assert indexes + [index] == [index];
    } else {
      BracketsAppend(indexes[1..], index);
      assert (indexes + [index])[1..] == indexes[1..] + [index];
    }
  }

  lemma OneIndexParsed(tokens: seq<string>, index: string, more: string)
    requires ']' !in index
    ensures AddIndexes(tokens, index + [']'] + more) == AddIndexes(tokens + [index], TrimBracket(more))
  {
    CutAt(index, ']', more);
  }

  lemma NothingParsed(tokens: seq<string>)
    ensures AddIndexes(tokens, "") == tokens
  {
  }

  lemma VerbatimParsed(tokens: seq<string>, rest: string)
    requires rest != "" && ']' !in rest
    ensures AddIndexes(tokens, rest) ==
      if tokens == [] then ["[" + rest]
      else tokens[..|tokens| - 1] + [tokens[|tokens| - 1] + "[" + rest]
  {
    CutNone(rest, ']');
    assert "" + "[" + rest == "[" + rest;
  }

  lemma {:induction false} IndexesParsed(tokens: seq<string>, indexes: seq<string>)
    requires indexes != [] && forall i | i in indexes :: IsIndex(i)
    ensures AddIndexes(tokens, Brackets(indexes)[1..]) == tokens + indexes
    decreases |indexes|
  {
    hide AddIndexes;
    var first, more := indexes[0], Brackets(indexes[1..]);
    assert IsIndex(first) && ']' !in first;
    assert Brackets(indexes)[1..] == first + [']'] + more;
    OneIndexParsed(tokens, first, more);
    if |indexes| > 1 {
      assert TrimBracket(more) == more[1..];
      IndexesParsed(tokens + [first], indexes[1..]);
      assert tokens + [first] + indexes[1..] == tokens + indexes;
    } else {
      assert more == "" && TrimBracket(more) == "";
      NothingParsed(tokens + [first]);
      assert tokens + [first] == tokens + indexes;
    }
  }

  function Named(tokens: seq<string>, name: string): seq<string> { if name != "" then tokens + [name] else tokens }

  lemma NameParsed(tokens: seq<string>, name: string, rest: string)
    requires '[' !in name && rest != ""
    ensures AddPart(tokens, name + ['['] + rest) == AddIndexes(Named(tokens, name), rest)
  {
    hide AddIndexes;
    CutAt(name, '[', rest);
  }

  /** A part made of a name without "[" and indexes. */
  lemma GroupParsed(tokens: seq<string>, name: string, indexes: seq<string>)
    requires '[' !in name && forall i | i in indexes :: IsIndex(i)
    ensures indexes == [] ==> AddPart(tokens, name) == tokens + [name]
    ensures indexes != [] ==> AddPart(tokens, name + Brackets(indexes)) == Named(tokens, name) + indexes
  {
    if indexes == [] {
      CutNone(name, '[');
    } else {
      hide AddIndexes, AddPart;
      var rest := Brackets(indexes)[1..];
      assert name + Brackets(indexes) == name + ['['] + rest;
      NameParsed(tokens, name, rest);
      IndexesParsed(Named(tokens, name), indexes);
    }
  }

  /** A token that keeps its identity is its own part's only token. */
  lemma TokenParsed(tokens: seq<string>, t: string)
    requires Keeps(t, tokens == [], false)
    ensures AddPart(tokens, t) == tokens + [t]
  {
    if '[' in t {
      CutMeaning(t, '[');
      var cut := Cut(t, '[');
      VerbatimParsed(Named(tokens, cut.before), cut.after);
      assert t == cut.before + "[" + cut.after;
      if cut.before != "" {
        assert Named(tokens, cut.before)[..|tokens|] == tokens;
      } else {
        assert t == "[" + cut.after && [] + [t] == [t];
      }
    } else {
      CutNone(t, '[');
    }
  }

  // ---------------------------------------------------------------- such tokens come back

  /** A dotted path whose last part is a name and indexes, and that parses to the tokens. */
  ghost predicate Grouped(dotted: string, tokens: seq<string>, parts: seq<string>, name: string, indexes: seq<string>) {
    && dotted != "" && tokens != []
    && (forall i | i in indexes :: IsIndex(i))
    && (indexes == [] ==> tokens[|tokens| - 1] == name)
    && (indexes != [] ==> '[' !in name)
    && Split(dotted, '.') == parts + [name + Brackets(indexes)]
    && AddPart(AddParts(parts), name + Brackets(indexes)) == tokens
  }

  lemma FirstToken(t: string)
    requires Keeps(t, true, false) && t != ""
    ensures if IsIndex(t) then Grouped(AddToken("", t), [t], [], "", [t]) else Grouped(AddToken("", t), [t], [], t, [])
  {
    assert AddParts([]) == [];
    hide AddPart, Split, Grouped;
    if IsIndex(t) {
      assert Brackets([t]) == "[" + t + "]" && "" + Brackets([t]) == Brackets([t]);
      SplitNone("[" + t + "]", '.');
      assert AddToken("", t) == "[" + t + "]";
      GroupParsed([], "", [t]);
      assert Named([], "") + [t] == [t];
    } else {
      assert t + Brackets([]) == t && "" + t == t;
      SplitNone(t, '.');
      TokenParsed([], t);
      assert [] + [t] == [t];
    }
  }

  lemma IndexToken(dotted: string, tokens: seq<string>, parts: seq<string>, name: string, indexes: seq<string>,
      t: string)
    requires Grouped(dotted, tokens, parts, name, indexes) && IsIndex(t)
    requires tokens[|tokens| - 1] != "" && (indexes == [] ==> '[' !in name)
    ensures Grouped(AddToken(dotted, t), tokens + [t], parts, name, indexes + [t])
  {
    hide AddParts, Split, Brackets, AddPart;
    IndexText(dotted, parts, name, indexes, t);
    GroupParsed(AddParts(parts), name, indexes);
    GroupParsed(AddParts(parts), name, indexes + [t]);
    NoBrackets(name);
    assert AddToken(dotted, t) != "";
    hide AddToken, IsIndex;
    assert Named(AddParts(parts), name) + (indexes + [t]) == tokens + [t];
  }

  lemma AddedIndex(dotted: string, t: string)
    requires IsIndex(t)
    ensures AddToken(dotted, t) == dotted + ("[" + t + "]") && '.' !in "[" + t + "]"
  {
  }

  lemma IndexText(dotted: string, parts: seq<string>, name: string, indexes: seq<string>, t: string)
    requires IsIndex(t) && Split(dotted, '.') == parts + [name + Brackets(indexes)]
    ensures Split(AddToken(dotted, t), '.') == parts + [name + Brackets(indexes + [t])]
  {
    var last, more := name + Brackets(indexes), "[" + t + "]";
    hide Split, Brackets, IsIndex, AddToken;
    AddedIndex(dotted, t);
    SplitExtends(dotted, more, '.');
    assert (parts + [last])[..|parts + [last]| - 1] == parts;
    BracketsAppend(indexes, t);
    assert last + more == name + Brackets(indexes + [t]);
  }

  lemma NoBrackets(name: string)
    ensures name + Brackets([]) == name
  {
  }

  lemma NameToken(dotted: string, tokens: seq<string>, parts: seq<string>, name: string, indexes: seq<string>,
      t: string)
    requires Grouped(dotted, tokens, parts, name, indexes) && Keeps(t, false, false) && !IsIndex(t)
    ensures Grouped(AddToken(dotted, t), tokens + [t], parts + [name + Brackets(indexes)], t, [])
  {
    hide AddPart, Brackets;
    var last := name + Brackets(indexes);
    SplitAppends(dotted, t, '.');
    assert AddToken(dotted, t) == dotted + ['.'] + t;
    assert (parts + [last])[..|parts + [last]| - 1] == parts;
    assert AddParts(parts + [last]) == tokens;
    NoBrackets(t);
    TokenParsed(tokens, t);
  }

  lemma PrefixRoundTrips(tokens: seq<string>, n: nat)
    requires 0 < n <= |tokens| && tokens[0] != "" && tokens[0][0] != '/' && forall k: nat | k < n :: KeepsAt(tokens, k)
    ensures RoundTrips(tokens[..n])
  {
    forall k: nat | k < n ensures KeepsAt(tokens[..n], k) {
      assert KeepsAt(tokens, k);
    }
  }

  /** The dotted path of such tokens splits into groups that parse to the tokens. */
  lemma {:induction false} DottedGroups(tokens: seq<string>)
    returns (parts: seq<string>, name: string, indexes: seq<string>)
    requires RoundTrips(tokens)
    ensures Grouped(Dotted(tokens), tokens, parts, name, indexes)
    decreases |tokens|
  {
    hide Grouped, Keeps;
    var n := |tokens| - 1;
    var t, before := tokens[n], tokens[..n];
    assert KeepsAt(tokens, n) && tokens == before + [t];
    if before == [] {
      FirstToken(t);
      parts, name, indexes := [], if IsIndex(t) then "" else t, if IsIndex(t) then [t] else [];
    } else {
      PrefixRoundTrips(tokens, n);
      parts, name, indexes := DottedGroups(before);
      if IsIndex(t) {
        assert KeepsAt(tokens, n - 1);
        BeforeIndex(before[n - 1], n - 1 == 0);
        LastIsName(Dotted(before), before, parts, name, indexes);
        IndexToken(Dotted(before), before, parts, name, indexes, t);
        indexes := indexes + [t];
      } else {
        NameToken(Dotted(before), before, parts, name, indexes, t);
        parts, name, indexes := parts + [name + Brackets(indexes)], t, [];
      }
    }
  }

  lemma BeforeIndex(t: string, first: bool)
    requires Keeps(t, first, true)
    ensures t != "" && '[' !in t
  {
  }

  lemma LastIsName(dotted: string, tokens: seq<string>, parts: seq<string>, name: string, indexes: seq<string>)
    requires Grouped(dotted, tokens, parts, name, indexes)
    ensures tokens != [] && (indexes == [] ==> tokens[|tokens| - 1] == name)
  {
  }

  /** Parsing the dotted path of such tokens gives the tokens. */
  lemma TokensComeBack(tokens: seq<string>)
    requires RoundTrips(tokens)
    ensures Dotted(tokens) != "" && AddParts(Split(Dotted(tokens), '.')) == tokens
  {
    var parts, name, indexes := DottedGroups(tokens);
    var all := parts + [name + Brackets(indexes)];
    assert all[..|all| - 1] == parts;
  }

  lemma {:induction false} DottedStart(tokens: seq<string>)
    requires tokens != [] && tokens[0] != ""
    ensures Dotted(tokens) != "" && Dotted(tokens)[0] == if IsIndex(tokens[0]) then '[' else tokens[0][0]
    decreases |tokens|
  {
    var before := tokens[..|tokens| - 1];
    if before != [] {
      assert before[0] == tokens[0];
      DottedStart(before);
    }
  }
}
