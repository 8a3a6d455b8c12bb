/** The incremental request parser (`src/runtime/picohttpparser.c`). */
module HttpRequest {
  import opened Wrappers

  const TAB: byte := 9
  const LF: byte := 10
  const CR: byte := 13
  const SPACE: byte := 32
  const COLON: byte := 58
  const DEL: byte := 127

  /** The prefix `HTTP/1.` */
  const VERSION: seq<byte> := [72, 84, 84, 80, 47, 49, 46]

  /** Incomplete (-2), failed (-1), or stopped at `pos`. */
  datatype Res<+T> = Partial | Bad | At(pos: nat, value: T) {
    predicate IsFailure() { !At? }
    function PropagateFailure<U>(): Res<U> requires !At? { if Partial? then Partial else Bad }
    function Extract(): (nat, T) requires At? { (pos, value) }
  }

  datatype Unit = Unit

  datatype Span = Span(start: nat, len: nat)

  /** A line that continues the header before it has no name. */
  datatype Header = Header(name: Option<Span>, val: Span)

  datatype Request = Request(meth: Span, path: Span, minor: nat, headers: seq<Header>)

  /** `token_char_map` */
  predicate TokenChar(b: byte) {
    || b in {33, 35, 36, 37, 38, 39, 42, 43, 45, 46, 94, 95, 96, 124, 126}
    || 48 <= b <= 57 || 65 <= b <= 90 || 97 <= b <= 122
  }

  predicate IsBlank(b: byte) { b == SPACE || b == TAB }

  predicate IsControl(b: byte) { (b < SPACE && b != TAB) || b == DEL }

  predicate Printable(b: byte) { SPACE <= b < DEL }

  // ----- What each part of the parser computes -----

  /** A carriage return with its line feed, or a line feed. */
  function Newline(buf: seq<byte>, i: nat): (r: Res<Unit>)
    requires i <= |buf|
    ensures r.At? ==> i < r.pos <= |buf|
  {
    if i == |buf| then Partial
    else if buf[i] == CR then
      if i + 1 == |buf| then Partial else if buf[i + 1] != LF then Bad else At(i + 2, Unit)
    else if buf[i] == LF then At(i + 1, Unit)
    else Bad
  }

  function ControlAt(buf: seq<byte>, i: nat): (r: Option<nat>)
    requires i <= |buf|
    ensures r.Some? ==> i <= r.value < |buf| && IsControl(buf[r.value]) && forall k | i <= k < r.value :: !IsControl(buf[k])
    ensures r.None? ==> forall k | i <= k < |buf| :: !IsControl(buf[k])
    decreases |buf| - i
  {
    if i == |buf| then None else if IsControl(buf[i]) then Some(i) else ControlAt(buf, i + 1)
  }

  /** The rest of a line. */
  function Line(buf: seq<byte>, i: nat): (r: Res<Span>)
    requires i <= |buf|
    ensures r.At? ==> i <= r.value.start + r.value.len < r.pos <= |buf| && r.value.start == i
  {
    match ControlAt(buf, i)
    case None => Partial
    case Some(j) => var (next, _) :- Newline(buf, j); At(next, Span(i, j - i))
  }

  /** A token that `stop` ends: its length, and the place of `stop`. */
  function Token(buf: seq<byte>, i: nat, stop: byte): (r: Res<Unit>)
    requires i <= |buf|
    ensures r.At? ==> i <= r.pos < |buf| && buf[r.pos] == stop
    decreases |buf| - i
  {
    if i == |buf| then Partial
    else if buf[i] == stop then At(i, Unit)
    else if !TokenChar(buf[i]) then Bad
    else Token(buf, i + 1, stop)
  }

  function Path(buf: seq<byte>, i: nat): (r: Res<Unit>)
    requires i <= |buf|
    ensures r.At? ==> i <= r.pos < |buf| && buf[r.pos] == SPACE
    decreases |buf| - i
  {
    if i == |buf| then Partial
    else if buf[i] == SPACE then At(i, Unit)
    else if buf[i] < SPACE || buf[i] == DEL then Bad
    else Path(buf, i + 1)
  }

  function NotSpace(buf: seq<byte>, i: nat): (r: Res<Unit>)
    requires i <= |buf|
    ensures r.At? ==> i <= r.pos < |buf|
    decreases |buf| - i
  {
    if i == |buf| then Partial else if buf[i] != SPACE then At(i, Unit) else NotSpace(buf, i + 1)
  }

  function NotBlank(buf: seq<byte>, i: nat): (r: Res<Unit>)
    requires i <= |buf|
    ensures r.At? ==> i <= r.pos < |buf|
    decreases |buf| - i
  {
    if i == |buf| then Partial else if !IsBlank(buf[i]) then At(i, Unit) else NotBlank(buf, i + 1)
  }

  /** The version, which is looked at only with nine bytes at hand, and the end of its line. */
  function VersionLine(buf: seq<byte>, i: nat): (r: Res<nat>)
    requires i <= |buf|
    ensures r.At? ==> i + 9 <= r.pos <= |buf|
  {
    if |buf| - i < 9 then Partial
    else if buf[i..i + 7] != VERSION || !(48 <= buf[i + 7] <= 57) then Bad
    else var (next, _) :- Newline(buf, i + 8); At(next, buf[i + 7] - 48)
  }

  /** The value without the blanks that end it. */
  function Trimmed(buf: seq<byte>, v: Span): Span
    requires v.start + v.len <= |buf|
    decreases v.len
  {
    if v.len > 0 && IsBlank(buf[v.start + v.len - 1]) then Trimmed(buf, v.(len := v.len - 1)) else v
  }

  /** The name of a header and the blanks behind its colon. */
  function HeaderName(buf: seq<byte>, i: nat): (r: Res<Span>)
    requires i <= |buf|
    ensures r.At? ==> i < r.pos < |buf|
  {
    var (colon, _) :- Token(buf, i, COLON);
    if colon == i then Bad else
    var (next, _) :- NotBlank(buf, colon + 1);
    At(next, Span(i, colon - i))
  }

  /** One header line; only lines behind the first may continue another. */
  function HeaderLine(buf: seq<byte>, i: nat, first: bool): (r: Res<Header>)
    requires i < |buf|
    ensures r.At? ==> i < r.pos <= |buf|
  {
    if first || !IsBlank(buf[i]) then
      var (start, name) :- HeaderName(buf, i);
      var (next, val) :- Line(buf, start);
      At(next, Header(Some(name), Trimmed(buf, val)))
    else
      var (next, val) :- Line(buf, i);
      At(next, Header(None, Trimmed(buf, val)))
  }

  function Headers(buf: seq<byte>, i: nat, n: nat, max: nat): (r: Res<seq<Header>>)
    requires i <= |buf|
    ensures r.At? ==> i < r.pos <= |buf|
    decreases |buf| - i
  {
    if i == |buf| then Partial
    else if buf[i] == CR || buf[i] == LF then var (next, _) :- Newline(buf, i); At(next, [])
    else if n == max then Bad
    else
      var (next, header) :- HeaderLine(buf, i, n == 0);
      var (end, headers) :- Headers(buf, next, n + 1, max);
      At(end, [header] + headers)
  }

  /** An empty line before the request is skipped. */
  function SkipEmpty(buf: seq<byte>): (r: Res<Unit>)
    ensures r.At? ==> r.pos <= |buf|
  {
    if buf == [] then Partial
    else if buf[0] == CR || buf[0] == LF then Newline(buf, 0)
    else At(0, Unit)
  }

  datatype RequestLine = RequestLine(meth: Span, path: Span, minor: nat)

  function ParseLine(buf: seq<byte>, i: nat): (r: Res<RequestLine>)
    requires i <= |buf|
    ensures r.At? ==> i + 9 <= r.pos <= |buf|
  {
    var (methodEnd, _) :- Token(buf, i, SPACE);
    var (path, _) :- NotSpace(buf, methodEnd + 1);
    var (pathEnd, _) :- Path(buf, path);
    var (version, _) :- NotSpace(buf, pathEnd + 1);
    if methodEnd == i || pathEnd == path then Bad else
    var (next, minor) :- VersionLine(buf, version);
    At(next, RequestLine(Span(i, methodEnd - i), Span(path, pathEnd - path), minor))
  }

  /** `parse_request` */
  function Parse(buf: seq<byte>, max: nat): (r: Res<Request>)
    ensures r.At? ==> 0 < r.pos <= |buf|
  {
    var (start, _) :- SkipEmpty(buf);
    var (next, line) :- ParseLine(buf, start);
    var (end, headers) :- Headers(buf, next, 0, max);
    At(end, Request(line.meth, line.path, line.minor, headers))
  }

  /** Two line ends in a row, looked for from `i` on with `count` found directly before. */
  function TwoNewlines(buf: seq<byte>, i: nat, count: nat): (r: Res<Unit>)
    requires i <= |buf|
    decreases |buf| - i
  {
    if i == |buf| then Partial
    else if buf[i] == CR || buf[i] == LF then
      var (next, _) :- Newline(buf, i);
      if count == 1 then At(next, Unit) else TwoNewlines(buf, next, 1)
    else TwoNewlines(buf, i + 1, 0)
  }

  function ScanStart(lastLen: nat): nat {
    if lastLen < 3 then 0 else lastLen - 3
  }

  /** `phr_parse_request`: with `lastLen` bytes seen by an earlier call, the request is parsed only if
      two line ends in a row show up from shortly before there on. */
  function ParseFrom(buf: seq<byte>, max: nat, lastLen: nat): Res<Request>
    requires lastLen <= |buf|
  {
    if lastLen != 0 then var (_, _) :- TwoNewlines(buf, ScanStart(lastLen), 0); Parse(buf, max)
    else Parse(buf, max)
  }

  // ----- Only the bytes that were read decide -----

  predicate Agree(a: seq<byte>, b: seq<byte>, k: nat) {
    k <= |a| && k <= |b| && a[..k] == b[..k]
  }

  /** A result on `a` that its first `k` bytes decide: it stops within them, or fails with all of them
      seen. */
  predicate Settled<T>(r: Res<T>, a: seq<byte>, k: nat) {
    (r.At? && r.pos <= k) || (r.Bad? && k == |a|)
  }

  /** The same for a scan that has looked at the byte it stops at. */
  predicate Found<T>(r: Res<T>, a: seq<byte>, k: nat) {
    (r.At? && r.pos < k) || (r.Bad? && k == |a|)
  }

  lemma Same(a: seq<byte>, b: seq<byte>, k: nat, i: nat)
    requires Agree(a, b, k) && i < k
    ensures a[i] == b[i]
  {
    assert a[i] == a[..k][i] == b[..k][i];
  }

  lemma NewlineSettled(a: seq<byte>, b: seq<byte>, k: nat, i: nat)
    requires Agree(a, b, k) && i <= k && Settled(Newline(a, i), a, k)
    ensures Newline(b, i) == Newline(a, i)
  {
    forall j | 0 <= j < k ensures a[j] == b[j] { Same(a, b, k, j); }
  }

  lemma {:induction false} TokenFound(a: seq<byte>, b: seq<byte>, k: nat, i: nat, stop: byte)
    requires Agree(a, b, k) && i <= k && Found(Token(a, i, stop), a, k)
    ensures Token(b, i, stop) == Token(a, i, stop)
    decreases |a| - i
  {
    Same(a, b, k, i);
    if a[i] != stop && TokenChar(a[i]) {
      TokenFound(a, b, k, i + 1, stop);
    }
  }

  lemma {:induction false} PathFound(a: seq<byte>, b: seq<byte>, k: nat, i: nat)
    requires Agree(a, b, k) && i <= k && Found(Path(a, i), a, k)
    ensures Path(b, i) == Path(a, i)
    decreases |a| - i
  {
    Same(a, b, k, i);
    if a[i] != SPACE && !(a[i] < SPACE || a[i] == DEL) {
      PathFound(a, b, k, i + 1);
    }
  }

  lemma {:induction false} NotSpaceFound(a: seq<byte>, b: seq<byte>, k: nat, i: nat)
    requires Agree(a, b, k) && i <= k && Found(NotSpace(a, i), a, k)
    ensures NotSpace(b, i) == NotSpace(a, i)
    decreases |a| - i
  {
    Same(a, b, k, i);
    if a[i] == SPACE {
      NotSpaceFound(a, b, k, i + 1);
    }
  }

  lemma {:induction false} NotBlankFound(a: seq<byte>, b: seq<byte>, k: nat, i: nat)
    requires Agree(a, b, k) && i <= k && Found(NotBlank(a, i), a, k)
    ensures NotBlank(b, i) == NotBlank(a, i)
    decreases |a| - i
  {
    Same(a, b, k, i);
    if IsBlank(a[i]) {
      NotBlankFound(a, b, k, i + 1);
    }
  }

  lemma {:induction false} ControlFound(a: seq<byte>, b: seq<byte>, k: nat, i: nat)
    requires Agree(a, b, k) && i <= k && ControlAt(a, i).Some? && ControlAt(a, i).value < k
    ensures ControlAt(b, i) == ControlAt(a, i)
    decreases |a| - i
  {
    Same(a, b, k, i);
    if !IsControl(a[i]) {
      ControlFound(a, b, k, i + 1);
    }
  }

  lemma LineSettled(a: seq<byte>, b: seq<byte>, k: nat, i: nat)
    requires Agree(a, b, k) && i <= k && Settled(Line(a, i), a, k)
    ensures Line(b, i) == Line(a, i)
  {
    ControlFound(a, b, k, i);
    NewlineSettled(a, b, k, ControlAt(a, i).value);
  }

  lemma {:induction false} TrimmedSame(a: seq<byte>, b: seq<byte>, k: nat, v: Span)
    requires Agree(a, b, k) && v.start + v.len <= k
    ensures Trimmed(a, v) == Trimmed(b, v)
    decreases v.len
  {
    if v.len > 0 {
      Same(a, b, k, v.start + v.len - 1);
      TrimmedSame(a, b, k, v.(len := v.len - 1));
    }
  }

  lemma VersionSettled(a: seq<byte>, b: seq<byte>, k: nat, i: nat)
    requires Agree(a, b, k) && i <= k && Settled(VersionLine(a, i), a, k)
    ensures VersionLine(b, i) == VersionLine(a, i)
  {
    assert a[i..i + 7] == a[..k][i..i + 7] == b[..k][i..i + 7] == b[i..i + 7];
    Same(a, b, k, i + 7);
    if a[i..i + 7] == VERSION && 48 <= a[i + 7] <= 57 {
      NewlineSettled(a, b, k, i + 8);
    }
  }

  lemma HeaderNameFound(a: seq<byte>, b: seq<byte>, k: nat, i: nat)
    requires Agree(a, b, k) && i <= k && Found(HeaderName(a, i), a, k)
    ensures HeaderName(b, i) == HeaderName(a, i)
  {
    TokenFound(a, b, k, i, COLON);
    var colon := Token(a, i, COLON);
    if colon.At? && colon.pos > i {
      NotBlankFound(a, b, k, colon.pos + 1);
    }
  }

  lemma HeaderLineSettled(a: seq<byte>, b: seq<byte>, k: nat, i: nat, first: bool)
    requires Agree(a, b, k) && i < k && Settled(HeaderLine(a, i, first), a, k)
    ensures HeaderLine(b, i, first) == HeaderLine(a, i, first)
  {
    Same(a, b, k, i);
    var start := i;
    if first || !IsBlank(a[i]) {
      HeaderNameFound(a, b, k, i);
      if HeaderName(a, i).At? { start := HeaderName(a, i).pos; } else { return; }
    }
    LineSettled(a, b, k, start);
    if Line(a, start).At? {
      TrimmedSame(a, b, k, Line(a, start).value);
    }
  }

  lemma {:induction false} HeadersSettled(a: seq<byte>, b: seq<byte>, k: nat, i: nat, n: nat, max: nat)
    requires Agree(a, b, k) && i <= k && Settled(Headers(a, i, n, max), a, k)
    ensures Headers(b, i, n, max) == Headers(a, i, n, max)
    decreases |a| - i
  {
    Same(a, b, k, i);
    if a[i] == CR || a[i] == LF {
      NewlineSettled(a, b, k, i);
    } else if n != max {
      HeaderLineSettled(a, b, k, i, n == 0);
      var line := HeaderLine(a, i, n == 0);
      if line.At? {
        HeadersSettled(a, b, k, line.pos, n + 1, max);
      }
    }
  }

  lemma ParseLineSettled(a: seq<byte>, b: seq<byte>, k: nat, i: nat)
    requires Agree(a, b, k) && i <= k && Settled(ParseLine(a, i), a, k)
    ensures ParseLine(b, i) == ParseLine(a, i)
  {
    hide Token, Path, NotSpace, VersionLine;
    TokenFound(a, b, k, i, SPACE);
    var methodEnd := Token(a, i, SPACE);
    if methodEnd.Bad? { return; }
    NotSpaceFound(a, b, k, methodEnd.pos + 1);
    var path := NotSpace(a, methodEnd.pos + 1);
    if path.Bad? { return; }
    PathFound(a, b, k, path.pos);
    var pathEnd := Path(a, path.pos);
    if pathEnd.Bad? { return; }
    NotSpaceFound(a, b, k, pathEnd.pos + 1);
    var version := NotSpace(a, pathEnd.pos + 1);
    if version.Bad? || methodEnd.pos == i || pathEnd.pos == path.pos { return; }
    VersionSettled(a, b, k, version.pos);
  }

  /** The result of a parse depends on the bytes it has read and on no others. */
  lemma ParseSettled(a: seq<byte>, b: seq<byte>, k: nat, max: nat)
    requires Agree(a, b, k) && Settled(Parse(a, max), a, k)
    ensures Parse(b, max) == Parse(a, max)
  {
    if a != [] && k > 0 { Same(a, b, k, 0); }
    var start := SkipEmpty(a);
    if a[0] == CR || a[0] == LF {
      NewlineSettled(a, b, k, 0);
    }
    if start.Bad? { return; }
    ParseLineSettled(a, b, k, start.pos);
    var line := ParseLine(a, start.pos);
    if line.Bad? { return; }
    HeadersSettled(a, b, k, line.pos, 0, max);
  }

  /** A request that was parsed, or found to be bad, stays so however many bytes follow. */
  lemma PrefixStable(buf: seq<byte>, more: seq<byte>, max: nat)
    requires !Parse(buf, max).Partial?
    ensures Parse(buf + more, max) == Parse(buf, max)
  {
    assert (buf + more)[..|buf|] == buf == buf[..|buf|];
    ParseSettled(buf, buf + more, |buf|, max);
  }

  /** No earlier prefix of a request parses differently: it needs every byte up to its end. */
  lemma PrefixIncomplete(buf: seq<byte>, k: nat, max: nat)
    requires k <= |buf| && Parse(buf, max).At?
    ensures Parse(buf[..k], max) == if k < Parse(buf, max).pos then Partial else Parse(buf, max)
  {
    var prefix := buf[..k];
    assert prefix + buf[k..] == buf;
    if k >= Parse(buf, max).pos {
      assert prefix[..k] == prefix;
      ParseSettled(buf, prefix, k, max);
    } else if !Parse(prefix, max).Partial? {
      PrefixStable(prefix, buf[k..], max);
    }
  }

  // ----- The two line ends of a complete request -----

  /** From `i` to `p`, every carriage return has its line feed. */
  predicate Clean(buf: seq<byte>, i: nat, p: nat) {
    p <= |buf| && forall j | i <= j < p && buf[j] == CR :: j + 1 < p && buf[j + 1] == LF
  }

  lemma CleanJoin(buf: seq<byte>, i: nat, m: nat, p: nat)
    requires i <= m <= p && Clean(buf, i, m) && Clean(buf, m, p)
    ensures Clean(buf, i, p)
  {
  }

  lemma {:induction false} TokenClean(buf: seq<byte>, i: nat, stop: byte)
    requires i <= |buf| && Token(buf, i, stop).At? && stop != CR
    ensures Clean(buf, i, Token(buf, i, stop).pos + 1)
    decreases |buf| - i
  {
    if buf[i] != stop {
      TokenClean(buf, i + 1, stop);
    }
  }

  lemma {:induction false} PathClean(buf: seq<byte>, i: nat)
    requires i <= |buf| && Path(buf, i).At?
    ensures Clean(buf, i, Path(buf, i).pos + 1)
    decreases |buf| - i
  {
    if buf[i] != SPACE {
      PathClean(buf, i + 1);
    }
  }

  lemma {:induction false} NotSpaceClean(buf: seq<byte>, i: nat)
    requires i <= |buf| && NotSpace(buf, i).At?
    ensures Clean(buf, i, NotSpace(buf, i).pos)
    decreases |buf| - i
  {
    if buf[i] == SPACE {
      NotSpaceClean(buf, i + 1);
    }
  }

  lemma {:induction false} NotBlankClean(buf: seq<byte>, i: nat)
    requires i <= |buf| && NotBlank(buf, i).At?
    ensures Clean(buf, i, NotBlank(buf, i).pos)
    decreases |buf| - i
  {
    if IsBlank(buf[i]) {
      NotBlankClean(buf, i + 1);
    }
  }

  lemma LineClean(buf: seq<byte>, i: nat)
    requires i <= |buf| && Line(buf, i).At?
    ensures Clean(buf, i, Line(buf, i).pos) && buf[Line(buf, i).pos - 1] == LF
  {
  }

  lemma HeaderLineClean(buf: seq<byte>, i: nat, first: bool)
    requires i < |buf| && HeaderLine(buf, i, first).At?
    ensures Clean(buf, i, HeaderLine(buf, i, first).pos) && buf[HeaderLine(buf, i, first).pos - 1] == LF
  {
    if first || !IsBlank(buf[i]) {
      var colon, start := Token(buf, i, COLON).pos, HeaderName(buf, i).pos;
      TokenClean(buf, i, COLON);
      NotBlankClean(buf, colon + 1);
      CleanJoin(buf, i, colon + 1, start);
      LineClean(buf, start);
      CleanJoin(buf, i, start, Line(buf, start).pos);
    } else {
      LineClean(buf, i);
    }
  }

  /** The end of the line before the empty line that ends at `p`. */
  predicate EmptyLineAt(buf: seq<byte>, e: nat, p: nat) {
    && e < p <= |buf| && buf[e] == LF
    && (p == e + 2 || (p == e + 3 && buf[e + 1] == CR)) && buf[p - 1] == LF
  }

  lemma {:induction false} HeadersClean(buf: seq<byte>, i: nat, n: nat, max: nat) returns (e: nat)
    requires 0 < i <= |buf| && Headers(buf, i, n, max).At? && buf[i - 1] == LF
    ensures Clean(buf, i, Headers(buf, i, n, max).pos) && EmptyLineAt(buf, e, Headers(buf, i, n, max).pos)
    decreases |buf| - i
  {
    hide HeaderLine;
    if buf[i] == CR || buf[i] == LF {
      e := i - 1;
    } else {
      HeaderLineClean(buf, i, n == 0);
      var next := HeaderLine(buf, i, n == 0).pos;
      e := HeadersClean(buf, next, n + 1, max);
      hide Clean;
      CleanJoin(buf, i, next, Headers(buf, i, n, max).pos);
    }
  }

  lemma ParseLineClean(buf: seq<byte>, i: nat)
    requires i <= |buf| && ParseLine(buf, i).At?
    ensures Clean(buf, i, ParseLine(buf, i).pos) && buf[ParseLine(buf, i).pos - 1] == LF
  {
    var methodEnd := Token(buf, i, SPACE).pos;
    var path := NotSpace(buf, methodEnd + 1).pos;
    var pathEnd := Path(buf, path).pos;
    var version := NotSpace(buf, pathEnd + 1).pos;
    TokenClean(buf, i, SPACE);
    NotSpaceClean(buf, methodEnd + 1);
    CleanJoin(buf, i, methodEnd + 1, path);
    PathClean(buf, path);
    CleanJoin(buf, i, path, pathEnd + 1);
    NotSpaceClean(buf, pathEnd + 1);
    CleanJoin(buf, i, pathEnd + 1, version);
    VersionClean(buf, version);
    CleanJoin(buf, i, version, ParseLine(buf, i).pos);
  }

  lemma VersionClean(buf: seq<byte>, i: nat)
    requires i <= |buf| && VersionLine(buf, i).At?
    ensures Clean(buf, i, VersionLine(buf, i).pos) && buf[VersionLine(buf, i).pos - 1] == LF
  {
    forall j | i <= j < i + 7 ensures buf[j] != CR {
      assert buf[j] == buf[i..i + 7][j - i] == VERSION[j - i];
    }
  }

  lemma RequestClean(buf: seq<byte>, max: nat) returns (e: nat)
    requires Parse(buf, max).At?
    ensures Clean(buf, 0, Parse(buf, max).pos) && EmptyLineAt(buf, e, Parse(buf, max).pos)
  {
    hide Headers, ParseLine;
    var start := SkipEmpty(buf).pos;
    assert Clean(buf, 0, start);
    ParseLineClean(buf, start);
    var next := ParseLine(buf, start).pos;
    CleanJoin(buf, 0, start, next);
    e := HeadersClean(buf, next, 0, max);
    CleanJoin(buf, 0, next, Parse(buf, max).pos);
  }

  /** A scan that starts no later than the last line before the empty one finds two line ends. */
  lemma {:induction false} ScanSucceeds(buf: seq<byte>, i: nat, count: nat, e: nat, p: nat)
    requires EmptyLineAt(buf, e, p) && Clean(buf, i, p)
    requires i <= e || (i == e + 1 && count == 1)
    ensures TwoNewlines(buf, i, count).At?
    decreases |buf| - i
  {
    if i <= e {
      if buf[i] == CR || buf[i] == LF {
        var next := Newline(buf, i).pos;
        if count != 1 {
          ScanSucceeds(buf, next, 1, e, p);
        }
      } else {
        ScanSucceeds(buf, i + 1, 0, e, p);
      }
    }
  }

  /** If the bytes seen by the earlier call held no request, parsing from there on finds exactly the
      request that parsing from scratch finds. */
  lemma ShortcutExact(buf: seq<byte>, max: nat, lastLen: nat)
    requires lastLen <= |buf| && !Parse(buf[..lastLen], max).At?
    ensures ParseFrom(buf, max, lastLen).At? <==> Parse(buf, max).At?
    ensures Parse(buf, max).At? ==> ParseFrom(buf, max, lastLen) == Parse(buf, max)
  {
    if lastLen != 0 && Parse(buf, max).At? {
      PrefixIncomplete(buf, lastLen, max);
      var p := Parse(buf, max).pos;
      var e := RequestClean(buf, max);
      ScanSucceeds(buf, ScanStart(lastLen), 0, e, p);
    }
  }

  /** The results of one call per arrival, each call told how many bytes the one before it saw. */
  function Arrivals(buf: seq<byte>, max: nat, seen: nat, cuts: seq<nat>): (r: Res<Request>)
    requires seen <= |buf|
    requires forall i | 0 <= i < |cuts| :: seen <= cuts[i] <= |buf| && forall j | i <= j < |cuts| :: cuts[i] <= cuts[j]
    decreases |cuts|
  {
    if cuts == [] then Partial
    else
      var r := ParseFrom(buf[..cuts[0]], max, seen);
      if r.Partial? then Arrivals(buf, max, cuts[0], cuts[1..]) else r
  }

  /** However the bytes of a request arrive, the calls end with the parse of the whole request. */
  lemma {:induction false} ArrivalsExact(buf: seq<byte>, max: nat, seen: nat, cuts: seq<nat>)
    requires seen <= |buf| && !Parse(buf[..seen], max).At?
    requires forall i | 0 <= i < |cuts| :: seen <= cuts[i] <= |buf| && forall j | i <= j < |cuts| :: cuts[i] <= cuts[j]
    requires cuts != [] && cuts[|cuts| - 1] == |buf| && Parse(buf, max).At?
    ensures Arrivals(buf, max, seen, cuts) == Parse(buf, max)
    decreases |cuts|
  {
    var prefix := buf[..cuts[0]];
    assert prefix[..seen] == buf[..seen];
    assert |cuts| == 1 ==> prefix == buf;
    ShortcutExact(prefix, max, seen);
    PrefixIncomplete(buf, cuts[0], max);
    if !Parse(prefix, max).At? {
      NeverBad(prefix, max, seen, buf);
      ArrivalsExact(buf, max, cuts[0], cuts[1..]);
    }
  }

  /** A part of a request is never turned away. */
  lemma NeverBad(prefix: seq<byte>, max: nat, lastLen: nat, buf: seq<byte>)
    requires lastLen <= |prefix| <= |buf| && prefix == buf[..|prefix|]
    requires Parse(buf, max).At? && |prefix| < Parse(buf, max).pos
    ensures !ParseFrom(prefix, max, lastLen).Bad?
  {
    PrefixIncomplete(buf, |prefix|, max);
    var e := RequestClean(buf, max);
    ScanNeverBad(prefix, ScanStart(lastLen), 0, buf, Parse(buf, max).pos);
  }

  lemma {:induction false} ScanNeverBad(prefix: seq<byte>, i: nat, count: nat, buf: seq<byte>, p: nat)
    requires i <= |prefix| < p <= |buf| && prefix == buf[..|prefix|] && Clean(buf, i, p)
    ensures !TwoNewlines(prefix, i, count).Bad?
    decreases |prefix| - i
  {
    if i < |prefix| {
      assert prefix[i] == buf[i];
      if buf[i] == CR || buf[i] == LF {
        if i + 1 < |prefix| { assert prefix[i + 1] == buf[i + 1]; }
        var next := Newline(prefix, i);
        if next.At? && count != 1 {
          ScanNeverBad(prefix, next.pos, 1, buf, p);
        }
      } else {
        ScanNeverBad(prefix, i + 1, 0, buf, p);
      }
    }
  }

  // ----- The parser itself: pointers that walk over the buffer -----

  /** `get_token_to_eol`, which looks at eight bytes in a row while it can. */
  method GetTokenToEol(buf: seq<byte>, start: nat) returns (r: Res<Span>)
    requires start <= |buf|
    ensures r == Line(buf, start)
  {
    var i, found := start, false;
    while !found && |buf| - i >= 8
      invariant start <= i <= |buf| && ControlAt(buf, start) == ControlAt(buf, i)
      invariant found ==> i < |buf| && IsControl(buf[i])
      decreases !found, |buf| - i
    {
      var ahead := i + 8;
      while i < ahead && Printable(buf[i])
        invariant start <= i <= ahead <= |buf| && ControlAt(buf, start) == ControlAt(buf, i)
      {
        i := i + 1;
      }
      if i < ahead {
        if IsControl(buf[i]) { found := true; } else { i := i + 1; }
      }
    }
    while !found
      invariant start <= i <= |buf| && ControlAt(buf, start) == ControlAt(buf, i)
      invariant found ==> i < |buf| && IsControl(buf[i])
      decreases !found, |buf| - i
    {
      if i == |buf| { return Partial; }
      if !Printable(buf[i]) && IsControl(buf[i]) { found := true; } else { i := i + 1; }
    }
    if buf[i] == CR {
      if i + 1 == |buf| { return Partial; }
      if buf[i + 1] != LF { return Bad; }
      return At(i + 2, Span(start, i - start));
    }
    if buf[i] == LF { return At(i + 1, Span(start, i - start)); }
    return Bad;
  }

  /** `is_complete` */
  method IsComplete(buf: seq<byte>, lastLen: nat) returns (r: Res<Unit>)
    requires lastLen <= |buf|
    ensures r == TwoNewlines(buf, ScanStart(lastLen), 0)
  {
    var i, count := if lastLen < 3 then 0 else lastLen - 3, 0;
    while true
      invariant i <= |buf| && count <= 1
      invariant TwoNewlines(buf, ScanStart(lastLen), 0) == TwoNewlines(buf, i, count)
      decreases |buf| - i
    {
      if i == |buf| { return Partial; }
      if buf[i] == CR {
        if i + 1 == |buf| { return Partial; }
        if buf[i + 1] != LF { return Bad; }
        i, count := i + 2, count + 1;
      } else if buf[i] == LF {
        i, count := i + 1, count + 1;
      } else {
        i, count := i + 1, 0;
      }
      if count == 2 { return At(i, Unit); }
    }
  }

  /** `parse_token` */
  method ParseToken(buf: seq<byte>, start: nat, stop: byte) returns (r: Res<Span>)
    requires start <= |buf|
    ensures r == match Token(buf, start, stop) case At(i, _) => At(i, Span(start, i - start)) case Bad => Bad case Partial => Partial
  {
    var i := start;
    if i == |buf| { return Partial; }
    while buf[i] != stop
      invariant start <= i < |buf| && Token(buf, start, stop) == Token(buf, i, stop)
      decreases |buf| - i
    {
      if !TokenChar(buf[i]) { return Bad; }
      i := i + 1;
      if i == |buf| { return Partial; }
    }
    return At(i, Span(start, i - start));
  }

  /** The `ADVANCE_TOKEN` of the path. */
  method AdvancePath(buf: seq<byte>, start: nat) returns (r: Res<Unit>)
    requires start <= |buf|
    ensures r == Path(buf, start)
  {
    var i := start;
    if i == |buf| { return Partial; }
    while buf[i] != SPACE
      invariant start <= i < |buf| && Path(buf, start) == Path(buf, i)
      decreases |buf| - i
    {
      if !Printable(buf[i]) && (buf[i] < SPACE || buf[i] == DEL) { return Bad; }
      i := i + 1;
      if i == |buf| { return Partial; }
    }
    return At(i, Unit);
  }

  method SkipSpaces(buf: seq<byte>, start: nat) returns (r: Res<Unit>)
    requires start <= |buf|
    ensures r == NotSpace(buf, start)
  {
    var i := start;
    while i < |buf| && buf[i] == SPACE
      invariant start <= i <= |buf| && NotSpace(buf, start) == NotSpace(buf, i)
    {
      i := i + 1;
    }
    return if i == |buf| then Partial else At(i, Unit);
  }

  /** `parse_headers` */
  method ParseHeaders(buf: seq<byte>, start: nat, max: nat) returns (r: Res<seq<Header>>)
    requires start <= |buf|
    ensures r == Headers(buf, start, 0, max)
  {
    hide HeaderLine;
    var i := start;
    var headers: seq<Header> := [];
    PrependEmpty(Headers(buf, start, 0, max));
    while true
      invariant start <= i <= |buf|
      invariant Headers(buf, start, 0, max) == Prepend(headers, Headers(buf, i, |headers|, max))
      decreases |buf| - i
    {
      if i == |buf| { return Partial; }
      assert headers + [] == headers;
      if buf[i] == CR {
        if i + 1 == |buf| { return Partial; }
        if buf[i + 1] != LF { return Bad; }
        return At(i + 2, headers);
      } else if buf[i] == LF {
        return At(i + 1, headers);
      }
      if |headers| == max { return Bad; }
      PrependOne(headers, buf, i, max);
      var line := ParseHeaderLine(buf, i, |headers| == 0);
      match line {
        case Partial => return Partial;
        case Bad => return Bad;
        case At(next, header) =>
          i, headers := next, headers + [header];
      }
    }
  }

  function Prepend(headers: seq<Header>, r: Res<seq<Header>>): Res<seq<Header>> {
    if r.At? then At(r.pos, headers + r.value) else r
  }

  lemma PrependEmpty(r: Res<seq<Header>>)
    ensures Prepend([], r) == r
  {
    if r.At? { assert [] + r.value == r.value; }
  }

  /** One more header line moves from what is ahead to what was read. */
  lemma PrependOne(headers: seq<Header>, buf: seq<byte>, i: nat, max: nat)
    requires i < |buf| && buf[i] != CR && buf[i] != LF && |headers| != max
    ensures var line := HeaderLine(buf, i, |headers| == 0);
      Prepend(headers, Headers(buf, i, |headers|, max))
        == if line.At? then Prepend(headers + [line.value], Headers(buf, line.pos, |headers| + 1, max))
           else if line.Bad? then Bad else Partial
  {
    hide HeaderLine;
    var line := HeaderLine(buf, i, |headers| == 0);
    if line.At? {
      var rest := Headers(buf, line.pos, |headers| + 1, max);
      assert rest.At? ==> headers + ([line.value] + rest.value) == headers + [line.value] + rest.value;
    }
  }

  /** The part of `parse_headers` that reads one line. */
  method ParseHeaderLine(buf: seq<byte>, start: nat, first: bool) returns (r: Res<Header>)
    requires start < |buf|
    ensures r == HeaderLine(buf, start, first)
  {
    var i := start;
    var name: Option<Span> := None;
    if first || !IsBlank(buf[i]) {
      var token := ParseToken(buf, i, COLON);
      if token.Partial? { return Partial; }
      if token.Bad? || token.value.len == 0 { return Bad; }
      name, i := Some(token.value), token.pos + 1;
      while i < |buf| && IsBlank(buf[i])
        invariant token.pos < i <= |buf| && NotBlank(buf, token.pos + 1) == NotBlank(buf, i)
      {
        i := i + 1;
      }
      if i == |buf| { return Partial; }
    }
    var line := GetTokenToEol(buf, i);
    if line.Partial? { return Partial; }
    if line.Bad? { return Bad; }
    var len := line.value.len;
    while len > 0 && IsBlank(buf[i + len - 1])
      invariant 0 <= len <= line.value.len && Trimmed(buf, line.value) == Trimmed(buf, Span(i, len))
    {
      len := len - 1;
    }
    return At(line.pos, Header(name, Span(i, len)));
  }

  /** `parse_request` */
  method ParseRequest(buf: seq<byte>, max: nat) returns (r: Res<Request>)
    ensures r == Parse(buf, max)
  {
    if |buf| == 0 { return Partial; }
    var i := 0;
    if buf[0] == CR {
      if |buf| == 1 { return Partial; }
      if buf[1] != LF { return Bad; }
      i := 2;
    } else if buf[0] == LF {
      i := 1;
    }
    var line := ParseRequestLine(buf, i);
    if line.Partial? { return Partial; }
    if line.Bad? { return Bad; }
    var headers := ParseHeaders(buf, line.pos, max);
    if headers.Partial? { return Partial; }
    if headers.Bad? { return Bad; }
    return At(headers.pos, Request(line.value.meth, line.value.path, line.value.minor, headers.value));
  }

  method ParseRequestLine(buf: seq<byte>, start: nat) returns (r: Res<RequestLine>)
    requires start <= |buf|
    ensures r == ParseLine(buf, start)
  {
    hide Token, Path, NotSpace;
    var token := ParseToken(buf, start, SPACE);
    if token.Partial? { return Partial; }
    if token.Bad? { return Bad; }
    var path := SkipSpaces(buf, token.pos + 1);
    if !path.At? { return if path.Partial? then Partial else Bad; }
    var pathEnd := AdvancePath(buf, path.pos);
    if !pathEnd.At? { return if pathEnd.Partial? then Partial else Bad; }
    var version := SkipSpaces(buf, pathEnd.pos + 1);
    if !version.At? { return if version.Partial? then Partial else Bad; }
    if token.value.len == 0 || pathEnd.pos == path.pos { return Bad; }
    var i := version.pos;
    if |buf| - i < 9 { return Partial; }
    var k := 0;
    while k < 7
      invariant k <= 7 && buf[i..i + k] == VERSION[..k]
    {
      if buf[i + k] != VERSION[k] {
        assert buf[i + k] == buf[i..i + 7][k];
        return Bad;
      }
      k := k + 1;
      assert buf[i..i + k] == buf[i..i + k - 1] + [buf[i + k - 1]];
    }
    if buf[i + 7] < 48 || 57 < buf[i + 7] { return Bad; }
    var minor, next := buf[i + 7] - 48, i + 8;
    if buf[next] == CR {
      if next + 1 == |buf| { return Partial; }
      if buf[next + 1] != LF { return Bad; }
      next := next + 2;
    } else if buf[next] == LF {
      next := next + 1;
    } else {
      return Bad;
    }
    return At(next, RequestLine(token.value, Span(path.pos, pathEnd.pos - path.pos), minor));
  }

  /** `phr_parse_request` */
  method PhrParseRequest(buf: seq<byte>, max: nat, lastLen: nat) returns (r: Res<Request>)
    requires lastLen <= |buf|
    ensures r == ParseFrom(buf, max, lastLen)
  {
    if lastLen != 0 {
      var complete := IsComplete(buf, lastLen);
      if complete.Partial? { return Partial; }
      if complete.Bad? { return Bad; }
    }
    r := ParseRequest(buf, max);
  }
}
