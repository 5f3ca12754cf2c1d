/** Field paths over gRPC (grpcbinding): a JSON Pointer as a dotted path (server.go) and back
    (client.go). */
module FieldPaths {
  import opened Strings

  // ---------------------------------------------------------------- escaping (RFC 6901, sections 3 and 4)

  function Unescape(token: string): string { ReplacePair(ReplacePair(token, '~', '1', '/'), '~', '0', '~') }

  function Escape(token: string): string { ReplaceChar(ReplaceChar(token, '~', "~0"), '/', "~1") }

  /** Every "~" starts "~0" or "~1", and there is no "/". */
  predicate WellFormedToken(raw: string) {
    if raw == [] then true
    else if raw[0] == '~' then |raw| >= 2 && raw[1] in {'0', '1'} && WellFormedToken(raw[2..])
    else raw[0] != '/' && WellFormedToken(raw[1..])
  }

  lemma EscapeCons(c: char, s: string)
    ensures Escape([c] + s) == (if c == '~' then "~0" else if c == '/' then "~1" else [c]) + Escape(s)
  {
    var first := if c == '~' then "~0" else [c];
    assert ([c] + s)[1..] == s;
    assert ReplaceChar([c] + s, '~', "~0") == first + ReplaceChar(s, '~', "~0");
    ReplaceCharAppend(first, ReplaceChar(s, '~', "~0"), '/', "~1");
    assert ReplaceChar(first, '/', "~1") == if c == '~' then "~0" else if c == '/' then "~1" else [c] by {
      if c == '~' {
        assert "~0"[1..] == "0" && "0"[1..] == "";
        assert ReplaceChar("0", '/', "~1") == "0";
      } else {
        assert [c][1..] == "";
      }
    }
  }

  /** Unescaping replaces each escape by its character. */
  lemma UnescapeSteps(raw: string)
    requires WellFormedToken(raw) && raw != []
    ensures raw[0] == '~' && raw[1] == '0' ==> Unescape(raw) == "~" + Unescape(raw[2..])
    ensures raw[0] == '~' && raw[1] == '1' ==> Unescape(raw) == "/" + Unescape(raw[2..])
    ensures raw[0] != '~' ==> Unescape(raw) == [raw[0]] + Unescape(raw[1..])
  {
    var once := ReplacePair(raw, '~', '1', '/');
    if raw[0] == '~' && raw[1] == '0' {
      var rest := ReplacePair(raw[2..], '~', '1', '/');
      assert raw[1..][1..] == raw[2..];
      assert ReplacePair(raw[1..], '~', '1', '/') == "0" + rest;
      assert once == "~" + ("0" + rest);
      assert once[0] == '~' && once[1] == '0' && once[2..] == rest;
    } else if raw[0] == '~' {
      var rest := ReplacePair(raw[2..], '~', '1', '/');
      assert once == "/" + rest && once[1..] == rest;
    } else {
      var rest := ReplacePair(raw[1..], '~', '1', '/');
      assert once == [raw[0]] + rest && once[1..] == rest;
    }
  }

  /** Escaping undoes unescaping. */
  lemma {:induction false} EscapeUnescape(raw: string)
    requires WellFormedToken(raw)
    ensures Escape(Unescape(raw)) == raw
    decreases |raw|
  {
    if raw != [] {
      UnescapeSteps(raw);
      if raw[0] == '~' {
        EscapeUnescape(raw[2..]);
        EscapeCons(if raw[1] == '0' then '~' else '/', Unescape(raw[2..]));
        assert raw == [raw[0], raw[1]] + raw[2..];
      } else {
        EscapeUnescape(raw[1..]);
        EscapeCons(raw[0], Unescape(raw[1..]));
        assert raw == [raw[0]] + raw[1..];
      }
    }
  }

  // ---------------------------------------------------------------- the two directions

  predicate IsDigits(token: string) { forall i | 0 <= i < |token| :: '0' <= token[i] <= '9' }

  predicate IsIndex(token: string) { token != "" && IsDigits(token) }

  function Tokens(pointer: string): seq<string>
    requires pointer != ""
  {
    var raws := Split(pointer[1..], '/');
    seq(|raws|, i requires 0 <= i < |raws| => Unescape(raws[i]))
  }

  /** One token added to the dotted path so far. */
  function AddToken(dotted: string, token: string): string {
    if IsIndex(token) then dotted + "[" + token + "]"
    else (if dotted == "" then dotted else dotted + ".") + token
  }

  function Dotted(tokens: seq<string>): string {
    if tokens == [] then "" else AddToken(Dotted(tokens[..|tokens| - 1]), tokens[|tokens| - 1])
  }

  function DottedPath(pointer: string): string {
    if pointer == "" || pointer[0] != '/' then pointer else Dotted(Tokens(pointer))
  }

  /** The index loop over what follows a part's name. */
  function AddIndexes(tokens: seq<string>, rest: string): seq<string>
    decreases |rest|
  {
    if rest == "" then tokens
    else
      var cut := Cut(rest, ']');
      CutShortens(rest, ']');
      if !cut.found then
        var tokens := if tokens == [] then [""] else tokens;
        tokens[|tokens| - 1 := tokens[|tokens| - 1] + "[" + rest]
      else AddIndexes(tokens + [cut.before], TrimBracket(cut.after))
  }

  function TrimBracket(s: string): string { if s != "" && s[0] == '[' then s[1..] else s }

  lemma {:induction false} CutShortens(s: string, sep: char)
    requires s != ""
    ensures |Cut(s, sep).after| < |s|
  {
    if s[0] != sep && |s| > 1 {
      CutShortens(s[1..], sep);
    }
  }

  function AddPart(tokens: seq<string>, part: string): seq<string> {
    var cut := Cut(part, '[');
    AddIndexes(if cut.before != "" || cut.after == "" then tokens + [cut.before] else tokens, cut.after)
  }

  function AddParts(parts: seq<string>): seq<string> {
    if parts == [] then [] else AddPart(AddParts(parts[..|parts| - 1]), parts[|parts| - 1])
  }

  function Pointer(tokens: seq<string>): string {
    if tokens == [] then "" else Pointer(tokens[..|tokens| - 1]) + "/" + Escape(tokens[|tokens| - 1])
  }

  function PointerPath(dotted: string): string {
    if dotted == "" || dotted[0] == '/' then dotted else Pointer(AddParts(Split(dotted, '.')))
  }

  // ---------------------------------------------------------------- the source's loops

  method IsIndexToken(token: string) returns (r: bool)
    ensures r == IsIndex(token)
  {
    if token == "" {
      return false;
    }
    var i := 0;
    while i < |token|
      invariant 0 <= i <= |token| && IsDigits(token[..i])
    {
      if token[i] < '0' || token[i] > '9' {
        return false;
      }
      i := i + 1;
    }
    assert token[..i] == token;
    return true;
  }

  method ToDottedPath(pointer: string) returns (dotted: string)
    ensures dotted == DottedPath(pointer)
  {
    if pointer == "" || pointer[0] != '/' {
      return pointer;
    }
    var raws := Split(pointer[1..], '/');
    ghost var tokens := Tokens(pointer);
    dotted := "";
    var i := 0;
    while i < |raws|
      invariant 0 <= i <= |raws| == |tokens| && dotted == Dotted(tokens[..i])
    {
      var token := Unescape(raws[i]);
      assert tokens[..i + 1][..i] == tokens[..i];
      i := i + 1;
      var index := IsIndexToken(token);
      if index {
        dotted := dotted + "[" + token + "]";
        continue;
      }
      if |dotted| > 0 {
        dotted := dotted + ".";
      }
      dotted := dotted + token;
    }
    assert tokens[..i] == tokens;
  }

  method ToPointerPath(dotted: string) returns (pointer: string)
    ensures pointer == PointerPath(dotted)
  {
    if dotted == "" || dotted[0] == '/' {
      return dotted;
    }
    var parts := Split(dotted, '.');
    var tokens: seq<string> := [];
    var i := 0;
    while i < |parts|
      invariant 0 <= i <= |parts| && tokens == AddParts(parts[..i])
    {
      assert parts[..i + 1][..i] == parts[..i];
      var cut := Cut(parts[i], '[');
      var rest := cut.after;
      if cut.before != "" || rest == "" {
        tokens := tokens + [cut.before];
      }
      ghost var whole := AddIndexes(tokens, rest);
      var verbatim := false;
      while rest != "" && !verbatim
        invariant if verbatim then tokens == whole else AddIndexes(tokens, rest) == whole
        decreases if verbatim then 0 else |rest| + 1
      {
        var index := Cut(rest, ']');
        CutShortens(rest, ']');
        if !index.found {
          if |tokens| == 0 {
            tokens := tokens + [""];
          }
          tokens := tokens[|tokens| - 1 := tokens[|tokens| - 1] + "[" + rest];
          verbatim := true;
        } else {
          tokens := tokens + [index.before];
          rest := TrimBracket(index.after);
        }
      }
      i := i + 1;
    }
    assert parts[..i] == parts;
    pointer := "";
    i := 0;
    while i < |tokens|
      invariant 0 <= i <= |tokens| && pointer == Pointer(tokens[..i])
    {
      assert tokens[..i + 1][..i] == tokens[..i];
      pointer := pointer + "/" + Escape(tokens[i]);
      i := i + 1;
    }
    assert tokens[..i] == tokens;
  }
}
