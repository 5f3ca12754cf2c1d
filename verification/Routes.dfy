/** HTTP routing (httpbinding/httpbinding.go): the compiled route table, and templates whose captures
    are exactly the values that render back into the path. */
module Routes {
  import opened Options
  import opened Strings

  datatype Route<T> = Route(method_: string, path: string, topic: T)

  // ---------------------------------------------------------------- template segments

  /** A template segment: literal text, or one placeholder with text around it. */
  datatype Piece = Literal(text: string) | Param(prefix: string, name: string, suffix: string)

  /** parseSegmentPlaceholder. */
  function ParsePiece(pattern: string): Piece {
    var open := Cut(pattern, '{');
    if !open.found then Literal(pattern)
    else
      var close := Cut(open.after, '}');
      if !close.found || close.before == "" || '{' in close.after || '}' in close.after then Literal(pattern)
      else Param(open.before, close.before, close.after)
  }

  function Template(path: string): seq<Piece> {
    var segments := Split(path, '/');
    seq(|segments|, i requires 0 <= i < |segments| => ParsePiece(segments[i]))
  }

  /** A segment is a parameter exactly when it can be written prefix{name}suffix with a non-empty name,
      and only in the one way that is found. */
  lemma PieceIsUnique(pattern: string, prefix: string, name: string, suffix: string)
    ensures ParsePiece(pattern) == Param(prefix, name, suffix) <==>
      && pattern == prefix + ['{'] + (name + ['}'] + suffix)
      && name != "" && '{' !in prefix && '}' !in name && '{' !in suffix && '}' !in suffix
  {
    CutMeaning(pattern, '{');
    CutMeaning(Cut(pattern, '{').after, '}');
    if pattern == prefix + ['{'] + (name + ['}'] + suffix) && '{' !in prefix && '}' !in name {
      CutAt(prefix, '{', name + ['}'] + suffix);
      CutAt(name, '}', suffix);
    }
  }

  // ---------------------------------------------------------------- matching one template

  function RenderPiece(p: Piece, capture: string): string {
    match p
    case Literal(text) => text
    case Param(prefix, _, suffix) => prefix + capture + suffix
  }

  /** What a segment captures; "" for a literal that matches. */
  function CapturePiece(p: Piece, segment: string): Option<string> {
    match p
    case Literal(text) => if text == segment then Some("") else None
    case Param(prefix, _, suffix) =>
      if |segment| < |prefix| + |suffix| || !(prefix <= segment) || segment[|segment| - |suffix|..] != suffix then None
      else
        var captured := segment[|prefix|..|segment| - |suffix|];
        if captured == "" then None else Some(captured)
  }

  function Captures(pieces: seq<Piece>, segments: seq<string>): (r: Option<seq<string>>)
    requires |pieces| == |segments|
    ensures r.Some? ==> |r.value| == |pieces|
  {
    if pieces == [] then Some([])
    else
      var first := CapturePiece(pieces[0], segments[0]);
      var rest := Captures(pieces[1..], segments[1..]);
      if first.None? || rest.None? then None else Some([first.value] + rest.value)
  }

  /** The params map the captures are written into, a later one over an earlier of the same name. */
  function ParamsOf(pieces: seq<Piece>, captures: seq<string>): map<string, string>
    requires |pieces| == |captures|
  {
    if pieces == [] then map[]
    else
      var n := |pieces| - 1;
      var before := ParamsOf(pieces[..n], captures[..n]);
      if pieces[n].Param? then before[Lower(pieces[n].name) := captures[n]] else before
  }

  function MatchPath(template: string, path: string): Option<map<string, string>> {
    var pieces, segments := Template(template), Split(path, '/');
    if |pieces| != |segments| then None
    else
      match Captures(pieces, segments)
      case None => None
      case Some(captures) => Some(ParamsOf(pieces, captures))
  }

  /** matchTemplate's loop over the segments. */
  method MatchTemplate(template: string, path: string) returns (params: Option<map<string, string>>)
    ensures params == MatchPath(template, path)
  {
    hide ParamsOf, CapturesFrom, Captures, ParsePiece, Lower;
    var patterns, segments := Split(template, '/'), Split(path, '/');
    if |segments| != |patterns| {
      return None;
    }
    var found: map<string, string> := map[];
    ghost var pieces := Template(template);
    ghost var captures: seq<string> := [];
    NothingCaptured(pieces, segments);
    var i := 0;
    while i < |patterns|
      invariant 0 <= i <= |patterns| == |pieces| == |segments| && |captures| == i
      invariant CapturesFrom(pieces, segments, captures, i)
      invariant found == ParamsOf(pieces[..i], captures)
    {
      var piece := ParsePiece(patterns[i]);
      var value := segments[i];
      if piece.Literal? {
        LiteralCapture(patterns[i], value);
        if patterns[i] != value {
          NoCapture(pieces, segments, i);
          return None;
        }
        OneMoreCaptured(pieces, segments, captures, i, "");
        captures := captures + [""];
      } else {
        var captured := CapturePiece(piece, value);
        if captured.None? {
          NoCapture(pieces, segments, i);
          return None;
        }
        OneMoreCaptured(pieces, segments, captures, i, captured.value);
        captures := captures + [captured.value];
        found := found[Lower(piece.name) := captured.value];
      }
      i := i + 1;
    }
    assert pieces[..i] == pieces;
    AllCaptured(pieces, segments, captures);
    params := Some(found);
  }

  /** The first i segments capture what captures lists. */
  ghost predicate CapturesFrom(pieces: seq<Piece>, segments: seq<string>, captures: seq<string>, i: nat)
    requires i <= |pieces| == |segments| && |captures| == i
  {
    forall j | 0 <= j < i :: CapturePiece(pieces[j], segments[j]) == Some(captures[j])
  }

  lemma NothingCaptured(pieces: seq<Piece>, segments: seq<string>)
    requires |pieces| == |segments|
    ensures CapturesFrom(pieces, segments, [], 0) && ParamsOf(pieces[..0], []) == map[]
  {
  }

  lemma OneMoreCaptured(pieces: seq<Piece>, segments: seq<string>, captures: seq<string>, i: nat, capture: string)
    requires i < |pieces| == |segments| && |captures| == i && CapturesFrom(pieces, segments, captures, i)
    requires CapturePiece(pieces[i], segments[i]) == Some(capture)
    ensures CapturesFrom(pieces, segments, captures + [capture], i + 1)
    ensures var before := ParamsOf(pieces[..i], captures);
      ParamsOf(pieces[..i + 1], captures + [capture])
        == if pieces[i].Param? then before[Lower(pieces[i].name) := capture] else before
  {
    hide CapturePiece, Lower;
    assert pieces[..i + 1][..i] == pieces[..i];
    assert (captures + [capture])[..i] == captures;
  }

  lemma LiteralCapture(pattern: string, value: string)
    requires ParsePiece(pattern).Literal?
    ensures CapturePiece(ParsePiece(pattern), value) == if pattern == value then Some("") else None
  {
  }

  lemma {:induction false} NoCapture(pieces: seq<Piece>, segments: seq<string>, i: nat)
    requires i < |pieces| == |segments| && CapturePiece(pieces[i], segments[i]).None?
    ensures Captures(pieces, segments).None?
  {
    if i > 0 {
      NoCapture(pieces[1..], segments[1..], i - 1);
    }
  }

  lemma {:induction false} AllCaptured(pieces: seq<Piece>, segments: seq<string>, captures: seq<string>)
    requires |pieces| == |segments| == |captures|
    ensures CapturesFrom(pieces, segments, captures, |pieces|) <==> Captures(pieces, segments) == Some(captures)
  {
    if pieces == [] {
      assert captures == [];
    } else {
      AllCaptured(pieces[1..], segments[1..], captures[1..]);
      assert captures == [captures[0]] + captures[1..];
      if Captures(pieces, segments) == Some(captures) {
        forall j | 0 <= j < |pieces| ensures CapturePiece(pieces[j], segments[j]) == Some(captures[j]) {
          if j > 0 {
            assert CapturePiece(pieces[1..][j - 1], segments[1..][j - 1]) == Some(captures[1..][j - 1]);
          }
        }
      }
    }
  }

  // ---------------------------------------------------------------- matching is rendering backwards

  /** Values for a template's parameters: non-empty and slash-free; "" beside a literal. */
  ghost predicate IsAssignment(pieces: seq<Piece>, captures: seq<string>) {
    |captures| == |pieces| && forall i | 0 <= i < |pieces| ::
      if pieces[i].Param? then captures[i] != "" && '/' !in captures[i] else captures[i] == ""
  }

  function RenderSegments(pieces: seq<Piece>, captures: seq<string>): seq<string>
    requires |pieces| == |captures|
  {
    seq(|pieces|, i requires 0 <= i < |pieces| => RenderPiece(pieces[i], captures[i]))
  }

  /** The path a template stands for under an assignment. */
  function Render(template: string, captures: seq<string>): string
    requires |captures| == |Template(template)|
  {
    Join(RenderSegments(Template(template), captures), '/')
  }

  lemma CaptureIsRender(p: Piece, segment: string, capture: string)
    requires '/' !in segment
    ensures CapturePiece(p, segment) == Some(capture) <==>
      && segment == RenderPiece(p, capture)
      && (if p.Param? then capture != "" && '/' !in capture else capture == "")
  {
    if p.Param? {
      if CapturePiece(p, segment) == Some(capture) {
        assert segment == segment[..|p.prefix|] + capture + segment[|segment| - |p.suffix|..];
      }
      if segment == p.prefix + capture + p.suffix {
        assert segment[|p.prefix|..|segment| - |p.suffix|] == capture;
        assert segment[|segment| - |p.suffix|..] == p.suffix;
      }
    }
  }

  lemma TemplatePieces(template: string, i: nat)
    requires i < |Template(template)|
    ensures match Template(template)[i]
      case Literal(text) => '/' !in text
      case Param(prefix, _, suffix) => '/' !in prefix && '/' !in suffix
  {
    var pattern := Split(template, '/')[i];
    assert '/' !in pattern;
    var p := ParsePiece(pattern);
    if p.Param? {
      PieceIsUnique(pattern, p.prefix, p.name, p.suffix);
      assert forall c | c in p.prefix || c in p.suffix :: c in pattern;
    }
  }

  /** The template matches a path with the given captures exactly when they are an assignment that
      renders the template into the path. */
  lemma CapturesAreRenderings(template: string, path: string, captures: seq<string>)
    ensures var pieces, segments := Template(template), Split(path, '/');
      (|pieces| == |segments| && Captures(pieces, segments) == Some(captures))
      <==> (IsAssignment(pieces, captures) && Render(template, captures) == path)
  {
    var pieces, segments := Template(template), Split(path, '/');
    if IsAssignment(pieces, captures) && Render(template, captures) == path {
      RenderedSplits(template, captures);
    }
    if |pieces| == |segments| == |captures| {
      AllCaptured(pieces, segments, captures);
      forall i | 0 <= i < |pieces| {
        CaptureIsRender(pieces[i], segments[i], captures[i]);
      }
      JoinSplit(path, '/');
      if CapturesFrom(pieces, segments, captures, |pieces|) {
        assert RenderSegments(pieces, captures) == segments;
      }
    }
  }

  lemma RenderedSplits(template: string, captures: seq<string>)
    requires IsAssignment(Template(template), captures)
    ensures Split(Render(template, captures), '/') == RenderSegments(Template(template), captures)
  {
    var pieces := Template(template);
    var rendered := RenderSegments(pieces, captures);
    forall s | s in rendered ensures '/' !in s {
      var i :| 0 <= i < |rendered| && rendered[i] == s;
      TemplatePieces(template, i);
    }
    SplitJoin(rendered, '/');
  }

  ghost predicate DistinctNames(pieces: seq<Piece>) {
    forall i, j | 0 <= i < j < |pieces| && pieces[i].Param? && pieces[j].Param? ::
      Lower(pieces[i].name) != Lower(pieces[j].name)
  }

  lemma {:induction false} ParamsAreCaptures(pieces: seq<Piece>, captures: seq<string>)
    requires |pieces| == |captures| && DistinctNames(pieces)
    ensures var params := ParamsOf(pieces, captures);
      && (forall i | 0 <= i < |pieces| && pieces[i].Param? ::
            Lower(pieces[i].name) in params && params[Lower(pieces[i].name)] == captures[i])
      && (forall k | k in params :: exists i :: 0 <= i < |pieces| && pieces[i].Param? && Lower(pieces[i].name) == k)
    decreases |pieces|
  {
    hide Lower;
    if pieces != [] {
      var n := |pieces| - 1;
      ParamsAreCaptures(pieces[..n], captures[..n]);
      var before := ParamsOf(pieces[..n], captures[..n]);
      forall k | k in ParamsOf(pieces, captures)
        ensures exists i :: 0 <= i < |pieces| && pieces[i].Param? && Lower(pieces[i].name) == k
      {
        if k in before {
          var i :| 0 <= i < n && pieces[..n][i].Param? && Lower(pieces[..n][i].name) == k;
          assert pieces[i].Param? && Lower(pieces[i].name) == k;
        } else {
          assert pieces[n].Param? && Lower(pieces[n].name) == k;
        }
      }
    }
  }

  /** A template with distinct parameter names matches a path exactly when some non-empty slash-free
      values rendered into it give the path; those values are unique, and the returned parameters are
      those values under their lower-cased names. */
  lemma MatchMeansRendering(template: string, path: string)
    requires DistinctNames(Template(template))
    ensures var pieces := Template(template);
      && (MatchPath(template, path).Some? <==>
            exists captures :: IsAssignment(pieces, captures) && Render(template, captures) == path)
      && (forall a, b | IsAssignment(pieces, a) && Render(template, a) == path
                     && IsAssignment(pieces, b) && Render(template, b) == path :: a == b)
      && (forall captures | IsAssignment(pieces, captures) && Render(template, captures) == path ::
            MatchPath(template, path) == Some(ParamsOf(pieces, captures)) && NamesCaptures(pieces, captures))
  {
    var pieces, segments := Template(template), Split(path, '/');
    forall captures | IsAssignment(pieces, captures) && Render(template, captures) == path
      ensures |pieces| == |segments| && Captures(pieces, segments) == Some(captures) && NamesCaptures(pieces, captures)
    {
      CapturesAreRenderings(template, path, captures);
      ParamsAreCaptures(pieces, captures);
    }
    if |pieces| == |segments| && Captures(pieces, segments).Some? {
      CapturesAreRenderings(template, path, Captures(pieces, segments).value);
    }
  }

  /** Each parameter is in the params under its lower-cased name, and nothing else is. */
  ghost predicate NamesCaptures(pieces: seq<Piece>, captures: seq<string>)
    requires |pieces| == |captures|
  {
    var params := ParamsOf(pieces, captures);
    && (forall i | 0 <= i < |pieces| && pieces[i].Param? ::
          Lower(pieces[i].name) in params && params[Lower(pieces[i].name)] == captures[i])
    && (forall k | k in params :: exists i :: 0 <= i < |pieces| && pieces[i].Param? && Lower(pieces[i].name) == k)
  }

  // ---------------------------------------------------------------- the table

  function RouteKey(method_: string, path: string): string { Upper(method_) + " " + path }

  datatype TemplateRoute<T> = TemplateRoute(method_: string, template: string, topic: T)

  datatype RouteTable<T> = RouteTable(exact: map<string, T>, templated: seq<TemplateRoute<T>>)

  datatype Matched<T> = NoMatch | Matched(topic: T, params: map<string, string>)

  predicate IsTemplated<T>(r: Route<T>) { '{' in r.path }

  /** NewRouteTable. */
  method NewRouteTable<T>(routes: seq<Route<T>>) returns (table: RouteTable<T>)
    ensures table == Compiled(routes)
  {
    var exact: map<string, T> := map[];
    var templated: seq<TemplateRoute<T>> := [];
    var i := 0;
    while i < |routes|
      invariant 0 <= i <= |routes| && RouteTable(exact, templated) == Compiled(routes[..i])
    {
      var route := routes[i];
      assert routes[..i + 1][..i] == routes[..i];
      i := i + 1;
      if '{' in route.path {
        templated := templated + [TemplateRoute(Upper(route.method_), route.path, route.topic)];
        continue;
      }
      exact := exact[RouteKey(route.method_, route.path) := route.topic];
    }
    assert routes[..i] == routes;
    table := RouteTable(exact, templated);
  }

  function Compiled<T>(routes: seq<Route<T>>): RouteTable<T> {
    if routes == [] then RouteTable(map[], [])
    else
      var n := |routes| - 1;
      var r, table := routes[n], Compiled(routes[..n]);
      if IsTemplated(r) then
        table.(templated := table.templated + [TemplateRoute(Upper(r.method_), r.path, r.topic)])
      else table.(exact := table.exact[RouteKey(r.method_, r.path) := r.topic])
  }

  function MatchOne<T>(r: TemplateRoute<T>, method_: string, path: string): Option<map<string, string>> {
    if r.method_ != Upper(method_) then None else MatchPath(r.template, path)
  }

  function FirstMatch<T>(templated: seq<TemplateRoute<T>>, method_: string, path: string): Matched<T> {
    if templated == [] then NoMatch
    else
      match MatchOne(templated[0], method_, path)
      case Some(params) => Matched(templated[0].topic, params)
      case None => FirstMatch(templated[1..], method_, path)
  }

  /** RouteTable.Match. */
  method Match<T>(table: RouteTable<T>, method_: string, path: string) returns (m: Matched<T>)
    ensures m == if RouteKey(method_, path) in table.exact then Matched(table.exact[RouteKey(method_, path)], map[])
                 else FirstMatch(table.templated, method_, path)
  {
    if RouteKey(method_, path) in table.exact {
      return Matched(table.exact[RouteKey(method_, path)], map[]);
    }
    var i := 0;
    assert table.templated[0..] == table.templated;
    while i < |table.templated|
      invariant 0 <= i <= |table.templated|
      invariant FirstMatch(table.templated[i..], method_, path) == FirstMatch(table.templated, method_, path)
    {
      var route := table.templated[i];
      assert table.templated[i..][0] == route && table.templated[i..][1..] == table.templated[i + 1..];
      if route.method_ == Upper(method_) {
        var params := MatchTemplate(route.template, path);
        if params.Some? {
          return Matched(route.topic, params.value);
        }
      }
      i := i + 1;
    }
    m := NoMatch;
  }

  // ---------------------------------------------------------------- which route wins

  /** Route i is an exact route to the request. */
  ghost predicate ExactAt<T>(routes: seq<Route<T>>, i: int, method_: string, path: string) {
    0 <= i < |routes| && !IsTemplated(routes[i])
      && RouteKey(routes[i].method_, routes[i].path) == RouteKey(method_, path)
  }

  /** Route i is a templated route that matches the request. */
  ghost predicate TemplateAt<T>(routes: seq<Route<T>>, i: int, method_: string, path: string) {
    0 <= i < |routes| && IsTemplated(routes[i]) && Upper(routes[i].method_) == Upper(method_)
    && MatchPath(routes[i].path, path).Some?
  }

  lemma {:induction false} ExactTable<T>(routes: seq<Route<T>>, method_: string, path: string)
    ensures var exact, key := Compiled(routes).exact, RouteKey(method_, path);
      && (key in exact <==> exists i :: ExactAt(routes, i, method_, path))
      && (forall i | ExactAt(routes, i, method_, path) && (forall j | i < j :: !ExactAt(routes, j, method_, path)) ::
            key in exact && exact[key] == routes[i].topic)
    decreases |routes|
  {
    hide RouteKey, IsTemplated;
    if routes != [] {
      var n := |routes| - 1;
      var before := routes[..n];
      ExactTable(before, method_, path);
      forall i | i < n ensures ExactAt(before, i, method_, path) <==> ExactAt(routes, i, method_, path) {}
      if ExactAt(routes, n, method_, path) {
      } else {
        forall i | ExactAt(routes, i, method_, path) ensures ExactAt(before, i, method_, path) {}
      }
    }
  }

  lemma {:induction false} FirstMatchAppend<T>(templated: seq<TemplateRoute<T>>, r: TemplateRoute<T>,
      method_: string, path: string)
    ensures FirstMatch(templated + [r], method_, path) ==
      if FirstMatch(templated, method_, path).Matched? then FirstMatch(templated, method_, path)
      else FirstMatch([r], method_, path)
  {
    if templated == [] {
      assert templated + [r] == [r];
    } else {
      FirstMatchAppend(templated[1..], r, method_, path);
      assert (templated + [r])[1..] == templated[1..] + [r];
    }
  }

  lemma {:induction false} TemplateTable<T>(routes: seq<Route<T>>, method_: string, path: string)
    ensures var m := FirstMatch(Compiled(routes).templated, method_, path);
      && (m.Matched? <==> exists i :: TemplateAt(routes, i, method_, path))
      && (forall i | TemplateAt(routes, i, method_, path)
                  && (forall j | 0 <= j < i :: !TemplateAt(routes, j, method_, path)) ::
            m == Matched(routes[i].topic, MatchPath(routes[i].path, path).value))
    decreases |routes|
  {
    hide MatchPath, Upper;
    if routes != [] {
      var n := |routes| - 1;
      var before, r := routes[..n], routes[n];
      TemplateTable(before, method_, path);
      forall i | i < n ensures TemplateAt(before, i, method_, path) <==> TemplateAt(routes, i, method_, path) {}
      if exists i :: TemplateAt(routes, i, method_, path) {
        var i :| TemplateAt(routes, i, method_, path);
        assert i < n ==> TemplateAt(before, i, method_, path);
      }
      if exists i :: TemplateAt(before, i, method_, path) {
        var i :| TemplateAt(before, i, method_, path);
        assert TemplateAt(routes, i, method_, path);
      }
      if IsTemplated(r) {
        assert MatchOne(TemplateRoute(Upper(r.method_), r.path, r.topic), method_, path).Some?
          ==> TemplateAt(routes, n, method_, path);
        var t := TemplateRoute(Upper(r.method_), r.path, r.topic);
        FirstMatchAppend(Compiled(before).templated, t, method_, path);
        OneMatch(t, method_, path);
      }
    }
  }

  lemma OneMatch<T>(r: TemplateRoute<T>, method_: string, path: string)
    ensures FirstMatch([r], method_, path) ==
      match MatchOne(r, method_, path) case Some(params) => Matched(r.topic, params) case None => NoMatch
  {
  }

  /** Match over a compiled table: the last exact route registered for the method and path, else the
      first templated route that matches; nothing when there is neither. */
  lemma MatchPrefersExact<T>(routes: seq<Route<T>>, method_: string, path: string, m: Matched<T>)
    requires var table := Compiled(routes);
      m == if RouteKey(method_, path) in table.exact then Matched(table.exact[RouteKey(method_, path)], map[])
           else FirstMatch(table.templated, method_, path)
    ensures forall i | ExactAt(routes, i, method_, path) && (forall j | i < j :: !ExactAt(routes, j, method_, path)) ::
      m == Matched(routes[i].topic, map[])
    ensures (forall i :: !ExactAt(routes, i, method_, path)) ==>
      forall i | TemplateAt(routes, i, method_, path)
              && (forall j | 0 <= j < i :: !TemplateAt(routes, j, method_, path)) ::
        m == Matched(routes[i].topic, MatchPath(routes[i].path, path).value)
    ensures m == NoMatch <==> forall i :: !ExactAt(routes, i, method_, path) && !TemplateAt(routes, i, method_, path)
  {
    ExactTable(routes, method_, path);
    TemplateTable(routes, method_, path);
  }

  /** Where methods have no space, a key stands for one method, up to case, and one path. */
  lemma RouteKeyIsUnique(m: string, p: string, n: string, q: string)
    requires ' ' !in m && ' ' !in n
    ensures RouteKey(m, p) == RouteKey(n, q) <==> Upper(m) == Upper(n) && p == q
  {
    assert ' ' !in Upper(m) && ' ' !in Upper(n);
    CutAt(Upper(m), ' ', p);
    CutAt(Upper(n), ' ', q);
    assert RouteKey(m, p) == Upper(m) + [' '] + p && RouteKey(n, q) == Upper(n) + [' '] + q;
  }
}
