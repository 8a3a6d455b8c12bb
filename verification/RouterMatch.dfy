/** Which requests the patterns of `parse_router` (`src/compiler/parser/mod.rs`) match, by a matcher of
    the regular expressions they are made of. */
module RouterMatch {
  import opened Ast
  import opened Router
  import opened Wrappers

  // ----- Regular expressions -----

  /** A character that stands for itself, or `[^/]+`. */
  datatype Piece = Literally(c: char) | NoSlashes

  predicate IsSpecial(c: char) {
    c in ['.', '[', ']', '(', ')', '*', '+', '?', '{', '}', '|', '^', '$', '\\']
  }

  /** The pieces of an expression of that kind, without its anchors. */
  function PiecesOf(r: string): Option<seq<Piece>> {
    if r == "" then Some([])
    else if "[^/]+" <= r then
      match PiecesOf(r[5..])
      case Some(rest) => Some([NoSlashes] + rest)
      case None => None
    else if IsSpecial(r[0]) then None
    else
      match PiecesOf(r[1..])
      case Some(rest) => Some([Literally(r[0])] + rest)
      case None => None
  }

  /** The whole of `s` is matched by the pieces one after the other. */
  predicate Spells(pieces: seq<Piece>, s: string)
    decreases |pieces|, |s|
  {
    if pieces == [] then s == ""
    else if pieces[0].Literally? then s != "" && s[0] == pieces[0].c && Spells(pieces[1..], s[1..])
    else s != "" && s[0] != '/' && (Spells(pieces[1..], s[1..]) || Spells(pieces, s[1..]))
  }

  /** What an expression that is anchored on both sides says of a text; no answer for other expressions. */
  function RegexMatch(s: string, r: string): Option<bool> {
    if |r| < 2 || r[0] != '^' || r[|r| - 1] != '$' then None
    else
      match PiecesOf(r[1..|r| - 1])
      case Some(pieces) => Some(Spells(pieces, s))
      case None => None
  }

  // ----- The pieces of a template -----

  predicate PlainText(s: string) {
    forall i | 0 <= i < |s| :: !IsSpecial(s[i])
  }

  /** The segments that are no parameters stand for themselves. */
  predicate PlainTemplate(template: seq<string>) {
    forall i | 0 <= i < |template| :: '/' !in template[i] && (IsParam(template[i]) || PlainText(template[i]))
  }

  function Literals(s: string): (pieces: seq<Piece>)
    ensures |pieces| == |s|
  {
    seq(|s|, i requires 0 <= i < |s| => Literally(s[i]))
  }

  function SegmentPieces(segment: string): seq<Piece> {
    if IsParam(segment) then [NoSlashes] else Literals(segment)
  }

  function TemplatePieces(template: seq<string>): seq<Piece>
    requires template != []
  {
    if |template| == 1 then SegmentPieces(template[0])
    else SegmentPieces(template[0]) + ([Literally('/')] + TemplatePieces(template[1..]))
  }

  lemma {:induction false} PlainPieces(s: string, rest: string, pieces: seq<Piece>)
    requires PlainText(s) && PiecesOf(rest) == Some(pieces)
    ensures PiecesOf(s + rest) == Some(Literals(s) + pieces)
    decreases |s|
  {
    if s == "" {
      assert s + rest == rest && Literals(s) + pieces == pieces;
    } else {
      PlainPieces(s[1..], rest, pieces);
      assert (s + rest)[1..] == s[1..] + rest && (s + rest)[0] == s[0];
      assert !IsSpecial(s[0]);
      assert Literals(s) + pieces == [Literally(s[0])] + (Literals(s[1..]) + pieces);
    }
  }

  lemma RunPieces(rest: string, pieces: seq<Piece>)
    requires PiecesOf(rest) == Some(pieces)
    ensures PiecesOf("[^/]+" + rest) == Some([NoSlashes] + pieces)
  {
    assert ("[^/]+" + rest)[..5] == "[^/]+" && ("[^/]+" + rest)[5..] == rest;
  }

  lemma SegmentPiecesAre(segment: string, rest: string, pieces: seq<Piece>)
    requires IsParam(segment) || PlainText(segment)
    requires PiecesOf(rest) == Some(pieces)
    ensures PiecesOf((if IsParam(segment) then "[^/]+" else segment) + rest) == Some(SegmentPieces(segment) + pieces)
  {
    if IsParam(segment) { RunPieces(rest, pieces); } else { PlainPieces(segment, rest, pieces); }
  }

  lemma {:induction false} TemplatePiecesAre(template: seq<string>)
    requires template != [] && PlainTemplate(template)
    ensures PiecesOf(Join(PatternSegments(template))) == Some(TemplatePieces(template))
    decreases |template|
  {
    hide PiecesOf, Join, PatternSegments, Literals, SegmentPieces, PlainText;
    var first := template[0];
    var pattern := if IsParam(first) then "[^/]+" else first;
    JoinedPatterns(template);
    if |template| == 1 {
      NoPieces();
      SegmentPiecesAre(first, "", []);
      assert pattern + "" == pattern && SegmentPieces(first) + [] == SegmentPieces(first);
    } else {
      var rest := template[1..];
      var after := Join(PatternSegments(rest));
      TemplatePiecesAre(rest);
      SlashPieces(after, TemplatePieces(rest));
      SegmentPiecesAre(first, "/" + after, [Literally('/')] + TemplatePieces(rest));
    }
  }

  lemma NoPieces()
    ensures PiecesOf("") == Some([])
  {
  }

  lemma SlashPieces(rest: string, pieces: seq<Piece>)
    requires PiecesOf(rest) == Some(pieces)
    ensures PiecesOf("/" + rest) == Some([Literally('/')] + pieces)
  {
    PlainPieces("/", rest, pieces);
    assert Literals("/") == [Literally('/')];
  }

  lemma JoinedPatterns(template: seq<string>)
    requires template != []
    ensures var pattern := if IsParam(template[0]) then "[^/]+" else template[0];
      Join(PatternSegments(template))
      == if |template| == 1 then pattern else pattern + ("/" + Join(PatternSegments(template[1..])))
  {
    assert PatternSegments(template[1..]) == PatternSegments(template)[1..];
    if |template| > 1 {
      var pattern := PatternSegments(template)[0];
      assert pattern + "/" + Join(PatternSegments(template[1..])) == pattern + ("/" + Join(PatternSegments(template[1..])));
    }
  }

  // ----- What they match -----

  lemma {:induction false} LiteralsMatch(t: string, rest: seq<Piece>, s: string)
    ensures Spells(Literals(t) + rest, s) <==> |t| <= |s| && s[..|t|] == t && Spells(rest, s[|t|..])
    decreases |t|
  {
    var pieces := Literals(t) + rest;
    if t == "" {
      assert pieces == rest && s[0..] == s;
    } else {
      assert pieces[0] == Literally(t[0]) && pieces[1..] == Literals(t[1..]) + rest;
      if s != "" && s[0] == t[0] {
        LiteralsMatch(t[1..], rest, s[1..]);
        if |t| <= |s| {
          assert s[..|t|] == [s[0]] + s[1..][..|t| - 1] && t == [t[0]] + t[1..];
          assert s[1..][|t| - 1..] == s[|t|..];
        }
      } else if s != "" && |t| <= |s| {
        assert s[..|t|][0] == s[0];
      }
    }
  }

  /** `a` has no slash and ends at the first one, or at the end of `s`. */
  predicate UpToSlash(a: string, s: string) {
    |a| <= |s| && s[..|a|] == a && '/' !in a && (|a| < |s| ==> s[|a|] == '/')
  }

  predicate StopsAtSlash(rest: seq<Piece>) {
    rest == [] || rest[0] == Literally('/')
  }

  lemma {:induction false} RunMatches(rest: seq<Piece>, a: string, s: string)
    requires StopsAtSlash(rest) && UpToSlash(a, s)
    ensures Spells([NoSlashes] + rest, s) <==> a != "" && Spells(rest, s[|a|..])
    decreases |s|
  {
    var pieces := [NoSlashes] + rest;
    assert pieces[1..] == rest;
    if a != "" {
      assert s[0] == s[..|a|][0] == a[0];
      assert s[1..][..|a| - 1] == s[..|a|][1..] && s[1..][|a| - 1..] == s[|a|..];
      RunMatches(rest, a[1..], s[1..]);
      if |a| > 1 {
        assert s[1] == s[..|a|][1] == a[1];
      }
    }
  }

  lemma FirstSlash(s: string) returns (a: string)
    ensures UpToSlash(a, s)
    ensures if a == s then Segments(s) == [s] else |a| < |s| && s == a + "/" + s[|a| + 1..] && Segments(s) == [a] + Segments(s[|a| + 1..])
  {
    var k := 0;
    while k < |s| && s[k] != '/'
      invariant k <= |s| && '/' !in s[..k]
    {
      assert s[..k + 1] == s[..k] + [s[k]];
      k := k + 1;
    }
    a := s[..k];
    if k < |s| {
      assert s == a + "/" + s[k + 1..];
      SegmentsHead(a, s[k + 1..]);
    } else {
      assert a == s;
      SegmentsHead(a, "");
    }
  }

  /** The pieces of a template match exactly the requests that fill it. */
  lemma {:induction false} TemplateMatches(template: seq<string>, s: string)
    requires template != [] && PlainTemplate(template)
    ensures Spells(TemplatePieces(template), s) <==> Fills(template, Segments(s))
    decreases |template|
  {
    var first := template[0];
    var a := FirstSlash(s);
    if |template| == 1 {
      assert SegmentPieces(first) + [] == SegmentPieces(first);
      SegmentMatches(first, [], a, s);
      if a != s { SegmentsNotEmpty(s[|a| + 1..]); }
      assert Fills(template, Segments(s)) <==> a == s && FitsSegment(first, a) by { OneFills(first, s, a); }
    } else {
      var rest := template[1..];
      var more := [Literally('/')] + TemplatePieces(rest);
      SegmentMatches(first, more, a, s);
      assert more[1..] == TemplatePieces(rest);
      if a == s {
        assert s[|a|..] == "";
      } else {
        var after := s[|a| + 1..];
        assert s[|a|..][1..] == after && s[|a|..][0] == '/';
        forall i | 0 <= i < |rest| ensures rest[i] == template[i + 1] {}
        TemplateMatches(rest, after);
        MoreFills(template, a, Segments(after));
      }
    }
  }

  /** What a request may have in the place of a segment. */
  predicate FitsSegment(segment: string, a: string) {
    if IsParam(segment) then a != "" else a == segment
  }

  lemma SegmentMatches(segment: string, rest: seq<Piece>, a: string, s: string)
    requires '/' !in segment && (IsParam(segment) || PlainText(segment)) && StopsAtSlash(rest) && UpToSlash(a, s)
    ensures Spells(SegmentPieces(segment) + rest, s) <==> FitsSegment(segment, a) && Spells(rest, s[|a|..])
  {
    if IsParam(segment) {
      RunMatches(rest, a, s);
    } else {
      LiteralsMatch(segment, rest, s);
      if |segment| <= |s| && s[..|segment|] == segment && Spells(rest, s[|segment|..]) {
        SameEnd(segment, a, s);
      }
    }
  }

  /** A text without slashes that ends at one, or at the end, is all up to the first slash. */
  lemma SameEnd(t: string, a: string, s: string)
    requires '/' !in t && |t| <= |s| && s[..|t|] == t && (|t| < |s| ==> s[|t|] == '/') && UpToSlash(a, s)
    ensures t == a
  {
    forall k | 0 <= k < |t| ensures s[k] != '/' { assert s[k] == t[k]; }
    forall k | 0 <= k < |a| ensures s[k] != '/' { assert s[k] == a[k]; }
    assert |t| == |a|;
  }

  lemma SegmentsNotEmpty(s: string)
    ensures |Segments(s)| > 0
  {
  }

  lemma OneFills(first: string, s: string, a: string)
    requires UpToSlash(a, s)
    requires if a == s then Segments(s) == [s] else |Segments(s)| > 1
    ensures Fills([first], Segments(s)) <==> a == s && FitsSegment(first, a)
  {
    if a == s && FitsSegment(first, a) {
      assert Segments(s)[0] == a;
    }
    if Fills([first], Segments(s)) {
      assert '/' !in Segments(s)[0] && if IsParam([first][0]) then Segments(s)[0] != "" else Segments(s)[0] == [first][0];
    }
  }

  lemma MoreFills(template: seq<string>, a: string, after: seq<string>)
    requires template != [] && '/' !in a
    ensures Fills(template, [a] + after) <==> FitsSegment(template[0], a) && Fills(template[1..], after)
  {
    var request := [a] + after;
    if Fills(template, request) {
      assert FitsSegment(template[0], request[0]);
      forall i | 0 <= i < |template| - 1
        ensures '/' !in after[i] && if IsParam(template[1..][i]) then after[i] != "" else after[i] == template[1..][i]
      {
        assert request[i + 1] == after[i] && template[i + 1] == template[1..][i];
      }
    }
    if FitsSegment(template[0], a) && Fills(template[1..], after) {
      forall i | 0 <= i < |template|
        ensures '/' !in request[i] && if IsParam(template[i]) then request[i] != "" else request[i] == template[i]
      {
        if i > 0 { assert request[i] == after[i - 1] && template[i] == template[1..][i - 1]; }
      }
    }
  }

  /** The pattern of a path whose literal segments are plain text matches exactly the requests that fill
      the template: the same segments, and something without slashes for each parameter. */
  lemma PatternMatches(path: string, s: string)
    requires PlainTemplate(Segments(path))
    ensures RegexMatch(s, Pattern(path)) == Some(Fills(Segments(path), Segments(s)))
  {
    var template := Segments(path);
    var inner := Join(PatternSegments(template));
    TemplatePiecesAre(template);
    TemplateMatches(template, s);
    assert Pattern(path)[1..|Pattern(path)| - 1] == inner;
  }

  /** And the pattern of a method matches that method. */
  lemma MethodMatches(mth: string, s: string)
    requires PlainText(mth)
    ensures RegexMatch(s, "^" + mth + "$") == Some(s == mth)
  {
    PlainPieces(mth, "", []);
    assert mth + "" == mth && Literals(mth) + [] == Literals(mth);
    LiteralsMatch(mth, [], s);
    assert ("^" + mth + "$")[1..|mth| + 1] == mth;
    if s == mth { assert s[..|mth|] == mth && s[|mth|..] == ""; }
    if |mth| <= |s| && s[|mth|..] == "" { assert |s| == |mth|; assert s[..|s|] == s; }
  }

  /** `regex` answers as a regular expression matcher does wherever `RegexMatch` has an answer. */
  ghost predicate MatchesRegex(regex: (string, string) -> bool) {
    forall s, r {:trigger regex(s, r)} :: RegexMatch(s, r).Some? ==> (regex(s, r) <==> RegexMatch(s, r).value)
  }

  /** So a route matches a request if and only if the methods are equal and the path fills the template. */
  lemma RouteMatches(route: Route, mth: string, path: string, regex: (string, string) -> bool)
    requires route.mth.Text? && route.path.Text? && MatchesRegex(regex)
    requires PlainText(route.mth.text) && PlainTemplate(Segments(route.path.text))
    ensures Matches(route, mth, path, regex) <==> mth == route.mth.text && Fills(Segments(route.path.text), Segments(path))
  {
    hide RegexMatch, Fills, Segments, Pattern;
    MethodMatches(route.mth.text, mth);
    PatternMatches(route.path.text, path);
  }
}
