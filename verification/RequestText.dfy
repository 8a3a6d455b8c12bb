/** The requests that the parser of `src/runtime/picohttpparser.c` reads: how each is written, what is
    returned for it, and which texts are turned away. */
module RequestText {
  import opened HttpRequest
  import opened Wrappers

  // ----- Bytes -----

  function Ascii(s: string): (bytes: seq<byte>)
    requires forall i | 0 <= i < |s| :: s[i] < '\U{80}'
    ensures |bytes| == |s| && forall i | 0 <= i < |s| :: bytes[i] == s[i] as int
  {
    seq(|s|, i requires 0 <= i < |s| => s[i] as int)
  }

  /** The characters of a token (section 5.6.2 of RFC 9110). */
  predicate IsTokenByte(b: byte) {
    || 'a' as int <= b <= 'z' as int || 'A' as int <= b <= 'Z' as int || '0' as int <= b <= '9' as int
    || b in ['!' as int, '#' as int, '$' as int, '%' as int, '&' as int, '\'' as int, '*' as int, '+' as int, '-' as int,
             '.' as int, '^' as int, '_' as int, '`' as int, '|' as int, '~' as int]
  }

  predicate IsPathByte(b: byte) { 33 <= b && b != 127 }

  /** Anything but a control character; the tab is none. */
  predicate IsTextByte(b: byte) { b == 9 || (32 <= b && b != 127) }

  predicate IsGapByte(b: byte) { b == 9 || b == 32 }

  predicate Tokens(s: seq<byte>) { forall i | 0 <= i < |s| :: IsTokenByte(s[i]) }

  predicate Paths(s: seq<byte>) { forall i | 0 <= i < |s| :: IsPathByte(s[i]) }

  predicate Texts(s: seq<byte>) { forall i | 0 <= i < |s| :: IsTextByte(s[i]) }

  predicate Gaps(s: seq<byte>) { forall i | 0 <= i < |s| :: IsGapByte(s[i]) }

  function Spaces(n: nat): (s: seq<byte>) {
    seq(n, _ => 32)
  }

  /** A line end: a line feed, with or without a carriage return. */
  function Eol(cr: bool): seq<byte> {
    if cr then [13, 10] else [10]
  }

  // ----- Requests -----

  /** A header field with the blanks around its value, or a line that continues the one before it and
      keeps the blanks it begins with. */
  datatype Field =
    | Named(name: seq<byte>, lead: seq<byte>, val: seq<byte>, trail: seq<byte>, cr: bool)
    | Folded(val: seq<byte>, trail: seq<byte>, cr: bool)

  /** A request as it is written: the empty line that may stand before it, the method, the path and the
      version with the spaces between them, and the fields. */
  datatype Message = Message(empty: Option<bool>, meth: seq<byte>, gap: nat, path: seq<byte>, gap2: nat,
                             minor: nat, cr: bool, fields: seq<Field>, lastCr: bool)

  predicate ValueOk(val: seq<byte>, trail: seq<byte>) {
    Texts(val) && Gaps(trail) && (val != [] ==> !IsGapByte(val[|val| - 1]))
  }

  predicate FieldOk(f: Field, first: bool) {
    match f
    case Named(name, lead, val, trail, _) =>
      && name != [] && Tokens(name) && Gaps(lead) && ValueOk(val, trail)
      && (if val == [] then trail == [] else !IsGapByte(val[0]))
    case Folded(val, trail, _) => !first && ValueOk(val, trail) && val + trail != [] && IsGapByte((val + trail)[0])
  }

  predicate FieldsOk(fields: seq<Field>, first: bool) {
    forall k | 0 <= k < |fields| :: FieldOk(fields[k], first && k == 0)
  }

  predicate WellFormed(m: Message) {
    m.meth != [] && Tokens(m.meth) && m.path != [] && Paths(m.path) && m.minor <= 9 && FieldsOk(m.fields, true)
  }

  function EmptyText(empty: Option<bool>): seq<byte> {
    if empty.Some? then Eol(empty.value) else []
  }

  function VersionText(minor: nat, cr: bool): seq<byte>
    requires minor <= 9
  {
    Ascii("HTTP/1.") + ([48 + minor] + Eol(cr))
  }

  function LineText(m: Message): seq<byte>
    requires m.minor <= 9
  {
    m.meth + (Spaces(1 + m.gap) + (m.path + (Spaces(1 + m.gap2) + VersionText(m.minor, m.cr))))
  }

  function FieldText(f: Field): seq<byte> {
    match f
    case Named(name, lead, val, trail, cr) => name + ([58] + (lead + ((val + trail) + Eol(cr))))
    case Folded(val, trail, cr) => (val + trail) + Eol(cr)
  }

  function FieldsText(fields: seq<Field>): seq<byte> {
    if fields == [] then [] else FieldText(fields[0]) + FieldsText(fields[1..])
  }

  /** The text of a request. */
  function Encode(m: Message): seq<byte>
    requires m.minor <= 9
  {
    EmptyText(m.empty) + (LineText(m) + (FieldsText(m.fields) + Eol(m.lastCr)))
  }

  // ----- Where its parts are -----

  function FieldLayout(f: Field, at: nat): Header {
    match f
    case Named(name, lead, val, _, _) => Header(Some(Span(at, |name|)), Span(at + |name| + 1 + |lead|, |val|))
    case Folded(val, _, _) => Header(None, Span(at, |val|))
  }

  function FieldsLayout(fields: seq<Field>, at: nat): (headers: seq<Header>)
    ensures |headers| == |fields|
  {
    if fields == [] then [] else [FieldLayout(fields[0], at)] + FieldsLayout(fields[1..], at + |FieldText(fields[0])|)
  }

  function Layout(m: Message): Request
    requires m.minor <= 9
  {
    var start := |EmptyText(m.empty)|;
    var path := start + |m.meth| + 1 + m.gap;
    Request(Span(start, |m.meth|), Span(path, |m.path|), m.minor, FieldsLayout(m.fields, start + |LineText(m)|))
  }

  // ----- Text at a place -----

  predicate Has(buf: seq<byte>, i: nat, text: seq<byte>) {
    i + |text| <= |buf| && forall k | 0 <= k < |text| :: buf[i + k] == text[k]
  }

  lemma HasJoin(buf: seq<byte>, i: nat, a: seq<byte>, b: seq<byte>)
    ensures Has(buf, i, a + b) <==> Has(buf, i, a) && Has(buf, i + |a|, b)
  {
    if Has(buf, i, a + b) {
      forall k | 0 <= k < |a| ensures buf[i + k] == a[k] { assert (a + b)[k] == a[k]; }
      forall k | 0 <= k < |b| ensures buf[i + |a| + k] == b[k] { assert buf[i + (|a| + k)] == (a + b)[|a| + k]; }
    }
    if Has(buf, i, a) && Has(buf, i + |a|, b) {
      forall k | 0 <= k < |a + b| ensures buf[i + k] == (a + b)[k] {
        if k >= |a| { assert buf[i + |a| + (k - |a|)] == b[k - |a|]; }
      }
    }
  }

  lemma HasSlice(buf: seq<byte>, i: nat, j: nat)
    requires i <= j <= |buf|
    ensures Has(buf, i, buf[i..j])
  {
  }

  lemma HasPrefix(buf: seq<byte>, text: seq<byte>)
    ensures Has(buf, 0, text) <==> |text| <= |buf| && buf[..|text|] == text
  {
    if |text| <= |buf| && buf[..|text|] == text {
      forall k | 0 <= k < |text| ensures buf[0 + k] == text[k] { assert buf[k] == buf[..|text|][k]; }
    }
  }

  // ----- What the scans find -----

  lemma BytesExact(b: byte)
    ensures TokenChar(b) <==> IsTokenByte(b)
    ensures IsBlank(b) <==> IsGapByte(b)
    ensures IsControl(b) <==> !IsTextByte(b)
    ensures IsTokenByte(b) ==> b != 32 && b != 58 && b != 9 && b != 13 && b != 10
  {
  }

  lemma TokenByteExact(b: byte)
    ensures TokenChar(b) <==> IsTokenByte(b)
  {
  }

  /** A scan over token characters ends at the first byte that is none. */
  lemma {:induction false} TokenScan(buf: seq<byte>, i: nat, stop: byte) returns (j: nat)
    requires i <= |buf| && !IsTokenByte(stop)
    ensures i <= j <= |buf| && Tokens(buf[i..j]) && (j < |buf| ==> !IsTokenByte(buf[j]))
    ensures Token(buf, i, stop) == if j == |buf| then Partial else if buf[j] == stop then At(j, Unit) else Bad
    decreases |buf| - i
  {
    hide TokenChar, IsTokenByte;
    if i == |buf| {
      j := i;
    } else {
      TokenByteExact(buf[i]);
      if IsTokenByte(buf[i]) {
        j := TokenScan(buf, i + 1, stop);
        assert buf[i..j] == [buf[i]] + buf[i + 1..j];
      } else {
        j := i;
      }
    }
  }

  lemma {:induction false} PathScan(buf: seq<byte>, i: nat) returns (j: nat)
    requires i <= |buf|
    ensures i <= j <= |buf| && Paths(buf[i..j]) && (j < |buf| ==> !IsPathByte(buf[j]))
    ensures Path(buf, i) == if j == |buf| then Partial else if buf[j] == 32 then At(j, Unit) else Bad
    decreases |buf| - i
  {
    if i == |buf| || !IsPathByte(buf[i]) {
      j := i;
    } else {
      j := PathScan(buf, i + 1);
      assert buf[i..j] == [buf[i]] + buf[i + 1..j];
    }
  }

  lemma {:induction false} SpaceScan(buf: seq<byte>, i: nat) returns (j: nat)
    requires i <= |buf|
    ensures i <= j <= |buf| && buf[i..j] == Spaces(j - i) && (j < |buf| ==> buf[j] != 32)
    ensures NotSpace(buf, i) == if j == |buf| then Partial else At(j, Unit)
    decreases |buf| - i
  {
    if i == |buf| || buf[i] != 32 {
      j := i;
    } else {
      j := SpaceScan(buf, i + 1);
      assert buf[i..j] == [buf[i]] + buf[i + 1..j] == Spaces(j - i);
    }
  }

  lemma {:induction false} GapScan(buf: seq<byte>, i: nat) returns (j: nat)
    requires i <= |buf|
    ensures i <= j <= |buf| && Gaps(buf[i..j]) && (j < |buf| ==> !IsGapByte(buf[j]))
    ensures NotBlank(buf, i) == if j == |buf| then Partial else At(j, Unit)
    decreases |buf| - i
  {
    if i == |buf| || !IsGapByte(buf[i]) {
      j := i;
    } else {
      j := GapScan(buf, i + 1);
      assert buf[i..j] == [buf[i]] + buf[i + 1..j];
    }
  }

  lemma {:induction false} TextScan(buf: seq<byte>, i: nat) returns (j: nat)
    requires i <= |buf|
    ensures i <= j <= |buf| && Texts(buf[i..j]) && (j < |buf| ==> !IsTextByte(buf[j]))
    ensures ControlAt(buf, i) == if j == |buf| then None else Some(j)
    decreases |buf| - i
  {
    if i == |buf| {
      j := i;
    } else {
      BytesExact(buf[i]);
      if IsTextByte(buf[i]) {
        j := TextScan(buf, i + 1);
        assert buf[i..j] == [buf[i]] + buf[i + 1..j];
      } else {
        j := i;
      }
    }
  }

  /** The value without the blanks behind it. */
  lemma {:induction false} TrimScan(buf: seq<byte>, v: Span) returns (n: nat)
    requires v.start + v.len <= |buf|
    ensures n <= v.len && Trimmed(buf, v) == Span(v.start, n) && Gaps(buf[v.start + n..v.start + v.len])
    ensures n > 0 ==> !IsGapByte(buf[v.start + n - 1])
    decreases v.len
  {
    if v.len > 0 && IsGapByte(buf[v.start + v.len - 1]) {
      n := TrimScan(buf, v.(len := v.len - 1));
      var last := v.start + v.len - 1;
      assert buf[v.start + n..last + 1] == buf[v.start + n..last] + [buf[last]];
    } else {
      n := v.len;
    }
  }

  // ----- Lines -----

  /** A place where a line should end and cannot. */
  predicate EolFault(buf: seq<byte>, i: nat) {
    i < |buf| && ((buf[i] != 13 && buf[i] != 10) || (buf[i] == 13 && i + 1 < |buf| && buf[i + 1] != 10))
  }

  lemma EolExact(buf: seq<byte>, i: nat)
    requires i <= |buf|
    ensures forall cr :: Has(buf, i, Eol(cr)) ==> Newline(buf, i) == At(i + |Eol(cr)|, Unit)
    ensures Newline(buf, i).At? ==> Has(buf, i, Eol(buf[i] == 13))
    ensures Newline(buf, i).Bad? <==> EolFault(buf, i)
  {
    forall cr | Has(buf, i, Eol(cr)) ensures Newline(buf, i) == At(i + |Eol(cr)|, Unit) {
      assert buf[i + 0] == Eol(cr)[0];
      if cr { assert buf[i + 1] == Eol(cr)[1]; }
    }
  }

  /** A control character in a line that does not end it. */
  predicate TextFault(buf: seq<byte>, i: nat) {
    exists j | i <= j < |buf| :: Texts(buf[i..j]) && !IsTextByte(buf[j]) && EolFault(buf, j)
  }

  lemma TextEnds(buf: seq<byte>, i: nat, j: nat, j': nat)
    requires i <= j <= |buf| && Texts(buf[i..j]) && (j < |buf| ==> !IsTextByte(buf[j]))
    requires i <= j' <= |buf| && Texts(buf[i..j']) && (j' < |buf| ==> !IsTextByte(buf[j']))
    ensures j == j'
  {
    forall k | i <= k < j ensures IsTextByte(buf[k]) { assert buf[k] == buf[i..j][k - i]; }
    forall k | i <= k < j' ensures IsTextByte(buf[k]) { assert buf[k] == buf[i..j'][k - i]; }
  }

  lemma TokensEnd(buf: seq<byte>, i: nat, j: nat, j': nat)
    requires i <= j <= |buf| && Tokens(buf[i..j]) && (j < |buf| ==> !IsTokenByte(buf[j]))
    requires i <= j' <= |buf| && Tokens(buf[i..j']) && (j' < |buf| ==> !IsTokenByte(buf[j']))
    ensures j == j'
  {
    forall k | i <= k < j ensures IsTokenByte(buf[k]) { assert buf[k] == buf[i..j][k - i]; }
    forall k | i <= k < j' ensures IsTokenByte(buf[k]) { assert buf[k] == buf[i..j'][k - i]; }
  }

  lemma PathsEnd(buf: seq<byte>, i: nat, j: nat, j': nat)
    requires i <= j <= |buf| && Paths(buf[i..j]) && (j < |buf| ==> !IsPathByte(buf[j]))
    requires i <= j' <= |buf| && Paths(buf[i..j']) && (j' < |buf| ==> !IsPathByte(buf[j']))
    ensures j == j'
  {
    forall k | i <= k < j ensures IsPathByte(buf[k]) { assert buf[k] == buf[i..j][k - i]; }
    forall k | i <= k < j' ensures IsPathByte(buf[k]) { assert buf[k] == buf[i..j'][k - i]; }
  }

  lemma GapsEnd(buf: seq<byte>, i: nat, j: nat, j': nat)
    requires i <= j <= |buf| && Gaps(buf[i..j]) && (j < |buf| ==> !IsGapByte(buf[j]))
    requires i <= j' <= |buf| && Gaps(buf[i..j']) && (j' < |buf| ==> !IsGapByte(buf[j']))
    ensures j == j'
  {
    forall k | i <= k < j ensures IsGapByte(buf[k]) { assert buf[k] == buf[i..j][k - i]; }
    forall k | i <= k < j' ensures IsGapByte(buf[k]) { assert buf[k] == buf[i..j'][k - i]; }
  }

  lemma SpacesEnd(buf: seq<byte>, i: nat, j: nat, j': nat)
    requires i <= j <= |buf| && buf[i..j] == Spaces(j - i) && (j < |buf| ==> buf[j] != 32)
    requires i <= j' <= |buf| && buf[i..j'] == Spaces(j' - i) && (j' < |buf| ==> buf[j'] != 32)
    ensures j == j'
  {
    forall k | i <= k < j ensures buf[k] == 32 { assert buf[k] == buf[i..j][k - i]; }
    forall k | i <= k < j' ensures buf[k] == 32 { assert buf[k] == buf[i..j'][k - i]; }
  }

  lemma HasIsSlice(buf: seq<byte>, i: nat, text: seq<byte>)
    requires Has(buf, i, text)
    ensures i + |text| <= |buf| && buf[i..i + |text|] == text
  {
  }

  lemma EolByte(buf: seq<byte>, i: nat, cr: bool)
    requires Has(buf, i, Eol(cr))
    ensures i < |buf| && (buf[i] == 13 || buf[i] == 10) && !IsTextByte(buf[i]) && !IsGapByte(buf[i])
  {
    assert buf[i + 0] == Eol(cr)[0];
  }

  lemma TextComplete(buf: seq<byte>, i: nat, text: seq<byte>, cr: bool)
    requires i <= |buf| && Texts(text) && Has(buf, i, text + Eol(cr))
    ensures Line(buf, i) == At(i + |text| + |Eol(cr)|, Span(i, |text|))
  {
    HasJoin(buf, i, text, Eol(cr));
    HasIsSlice(buf, i, text);
    EolByte(buf, i + |text|, cr);
    var j := TextScan(buf, i);
    TextEnds(buf, i, j, i + |text|);
    EolExact(buf, j);
  }

  lemma TextSound(buf: seq<byte>, i: nat) returns (j: nat, cr: bool)
    requires i <= |buf| && Line(buf, i).At?
    ensures i <= j <= |buf| && Texts(buf[i..j]) && Has(buf, j, Eol(cr))
    ensures Line(buf, i) == At(j + |Eol(cr)|, Span(i, j - i))
  {
    j := TextScan(buf, i);
    EolExact(buf, j);
    cr := buf[j] == 13;
  }

  lemma TextFaulty(buf: seq<byte>, i: nat)
    requires i <= |buf|
    ensures Line(buf, i).Bad? <==> TextFault(buf, i)
  {
    var j := TextScan(buf, i);
    EolExact(buf, j);
    forall k | i <= k < |buf| && Texts(buf[i..k]) && !IsTextByte(buf[k]) ensures j == k {
      TextEnds(buf, i, j, k);
    }
  }

  // ----- Header fields -----

  lemma TrimExact(buf: seq<byte>, i: nat, val: seq<byte>, trail: seq<byte>)
    requires Has(buf, i, val + trail) && ValueOk(val, trail)
    ensures Trimmed(buf, Span(i, |val + trail|)) == Span(i, |val|)
  {
    HasJoin(buf, i, val, trail);
    var n := TrimScan(buf, Span(i, |val + trail|));
    HasIsSlice(buf, i + |val|, trail);
  }

  lemma GapText(trail: seq<byte>)
    requires Gaps(trail)
    ensures Texts(trail)
  {
  }

  lemma ValueText(val: seq<byte>, trail: seq<byte>)
    requires ValueOk(val, trail)
    ensures Texts(val + trail)
  {
    GapText(trail);
  }

  /** The parts of a named field one behind the other. */
  lemma NamedParts(buf: seq<byte>, i: nat, f: Field)
    requires f.Named?
    ensures var colon := i + |f.name|; var start := colon + 1 + |f.lead|;
      Has(buf, i, FieldText(f))
      <==> (Has(buf, i, f.name) && Has(buf, colon, [58]) && Has(buf, colon + 1, f.lead)
            && Has(buf, start, f.val + f.trail) && Has(buf, start + |f.val + f.trail|, Eol(f.cr)))
  {
    hide Has;
    var Named(name, lead, val, trail, cr) := f;
    var colon, start := i + |name|, i + |name| + 1 + |lead|;
    HasJoin(buf, i, name, [58] + (lead + ((val + trail) + Eol(cr))));
    HasJoin(buf, colon, [58], lead + ((val + trail) + Eol(cr)));
    HasJoin(buf, colon + 1, lead, (val + trail) + Eol(cr));
    HasJoin(buf, start, val + trail, Eol(cr));
  }

  lemma NameExact(buf: seq<byte>, i: nat, name: seq<byte>, lead: seq<byte>)
    requires Has(buf, i, name) && Has(buf, i + |name|, [58]) && Has(buf, i + |name| + 1, lead)
    requires name != [] && Tokens(name) && Gaps(lead)
    requires var start := i + |name| + 1 + |lead|; start < |buf| && !IsGapByte(buf[start])
    ensures HeaderName(buf, i) == At(i + |name| + 1 + |lead|, Span(i, |name|))
  {
    var colon := i + |name|;
    assert buf[colon + 0] == [58][0];
    HasIsSlice(buf, i, name);
    HasIsSlice(buf, colon + 1, lead);
    hide Has;
    var j := TokenScan(buf, i, COLON);
    TokensEnd(buf, i, j, colon);
    var g := GapScan(buf, colon + 1);
    GapsEnd(buf, colon + 1, g, colon + 1 + |lead|);
  }

  lemma ValueBegins(buf: seq<byte>, at: nat, f: Field, first: bool)
    requires f.Named? && FieldOk(f, first)
    requires Has(buf, at, f.val + f.trail) && Has(buf, at + |f.val + f.trail|, Eol(f.cr))
    ensures at < |buf| && !IsGapByte(buf[at])
  {
    EolByte(buf, at + |f.val + f.trail|, f.cr);
    if f.val != [] { assert buf[at + 0] == (f.val + f.trail)[0]; } else { assert f.val + f.trail == []; }
  }

  lemma NamedComplete(buf: seq<byte>, i: nat, f: Field, first: bool)
    requires f.Named? && FieldOk(f, first) && Has(buf, i, FieldText(f))
    ensures i < |buf| && HeaderLine(buf, i, first) == At(i + |FieldText(f)|, FieldLayout(f, i))
    ensures IsTokenByte(buf[i])
  {
    var Named(name, lead, val, trail, cr) := f;
    NamedParts(buf, i, f);
    assert buf[i + 0] == name[0];
    BytesExact(buf[i]);
    hide Has, HeaderName, Line, Trimmed;
    var start := i + |name| + 1 + |lead|;
    ValueBegins(buf, start, f, first);
    NameExact(buf, i, name, lead);
    ValueText(val, trail);
    HasJoin(buf, start, val + trail, Eol(cr));
    TextComplete(buf, start, val + trail, cr);
    TrimExact(buf, start, val, trail);
  }

  lemma FoldedComplete(buf: seq<byte>, i: nat, f: Field, first: bool)
    requires f.Folded? && FieldOk(f, first) && Has(buf, i, FieldText(f))
    ensures i < |buf| && HeaderLine(buf, i, first) == At(i + |FieldText(f)|, FieldLayout(f, i))
    ensures IsGapByte(buf[i])
  {
    var Folded(val, trail, cr) := f;
    HasJoin(buf, i, val + trail, Eol(cr));
    assert buf[i + 0] == (val + trail)[0];
    ValueText(val, trail);
    TextComplete(buf, i, val + trail, cr);
    TrimExact(buf, i, val, trail);
  }

  lemma FieldComplete(buf: seq<byte>, i: nat, f: Field, first: bool)
    requires FieldOk(f, first) && Has(buf, i, FieldText(f))
    ensures i < |buf| && buf[i] != 13 && buf[i] != 10
    ensures HeaderLine(buf, i, first) == At(i + |FieldText(f)|, FieldLayout(f, i))
  {
    if f.Named? {
      NamedComplete(buf, i, f, first);
      BytesExact(buf[i]);
    } else {
      FoldedComplete(buf, i, f, first);
    }
  }

  lemma ValueSound(buf: seq<byte>, i: nat, j: nat) returns (n: nat)
    requires i <= j <= |buf| && Texts(buf[i..j])
    ensures n <= j - i && Trimmed(buf, Span(i, j - i)) == Span(i, n) && ValueOk(buf[i..i + n], buf[i + n..j])
    ensures buf[i..i + n] + buf[i + n..j] == buf[i..j]
  {
    n := TrimScan(buf, Span(i, j - i));
    assert buf[i..i + n] == buf[i..j][..n];
    if n > 0 { assert buf[i..i + n][n - 1] == buf[i + n - 1]; }
  }

  lemma FoldedSound(buf: seq<byte>, i: nat) returns (f: Field)
    requires i < |buf| && IsGapByte(buf[i]) && HeaderLine(buf, i, false).At?
    ensures FieldOk(f, false) && Has(buf, i, FieldText(f))
    ensures HeaderLine(buf, i, false) == At(i + |FieldText(f)|, FieldLayout(f, i))
  {
    var j, cr := TextSound(buf, i);
    var n := ValueSound(buf, i, j);
    f := Folded(buf[i..i + n], buf[i + n..j], cr);
    EolByte(buf, j, cr);
    HasSlice(buf, i, j);
    HasJoin(buf, i, buf[i..j], Eol(cr));
    assert buf[i..j][0] == buf[i];
  }

  lemma NameSound(buf: seq<byte>, i: nat) returns (colon: nat, start: nat)
    requires i < |buf| && HeaderName(buf, i).At?
    ensures i < colon < start < |buf| && Tokens(buf[i..colon]) && buf[colon] == 58
    ensures Gaps(buf[colon + 1..start]) && !IsGapByte(buf[start])
    ensures HeaderName(buf, i) == At(start, Span(i, colon - i))
  {
    colon := TokenScan(buf, i, COLON);
    start := GapScan(buf, colon + 1);
  }

  lemma NamedValue(buf: seq<byte>, start: nat, j: nat, n: nat)
    requires start + n <= j <= |buf| && start < |buf| && !IsGapByte(buf[start]) && Gaps(buf[start + n..j])
    ensures var val, trail := buf[start..start + n], buf[start + n..j]; if val == [] then trail == [] else !IsGapByte(val[0])
  {
    forall k | start + n <= k < j ensures IsGapByte(buf[k]) { assert buf[k] == buf[start + n..j][k - (start + n)]; }
  }

  lemma NamedSound(buf: seq<byte>, i: nat, first: bool) returns (f: Field)
    requires i < |buf| && (first || !IsGapByte(buf[i])) && HeaderLine(buf, i, first).At?
    ensures FieldOk(f, first) && Has(buf, i, FieldText(f))
    ensures HeaderLine(buf, i, first) == At(i + |FieldText(f)|, FieldLayout(f, i))
  {
    hide HeaderName, Line, Trimmed, Has, FieldOk, FieldText, FieldLayout, IsGapByte, TokenChar;
    assert first || !IsBlank(buf[i]) by { BytesExact(buf[i]); }
    var colon, start := NameSound(buf, i);
    var j, cr := TextSound(buf, start);
    var n := ValueSound(buf, start, j);
    f := NamedFrom(buf, i, colon, start, n, j, cr);
    NamedIs(buf, i, colon, start, n, j, cr, first);
  }

  /** The named field between these places. */
  function NamedFrom(buf: seq<byte>, i: nat, colon: nat, start: nat, n: nat, j: nat, cr: bool): Field
    requires i < colon < start && start + n <= j <= |buf|
  {
    Named(buf[i..colon], buf[colon + 1..start], buf[start..start + n], buf[start + n..j], cr)
  }

  lemma NamedIs(buf: seq<byte>, i: nat, colon: nat, start: nat, n: nat, j: nat, cr: bool, first: bool)
    requires i < colon < start < |buf| && start + n <= j <= |buf|
    requires Tokens(buf[i..colon]) && buf[colon] == 58 && Gaps(buf[colon + 1..start]) && !IsGapByte(buf[start])
    requires ValueOk(buf[start..start + n], buf[start + n..j]) && Has(buf, j, Eol(cr))
    ensures var f := NamedFrom(buf, i, colon, start, n, j, cr);
      && FieldOk(f, first) && Has(buf, i, FieldText(f)) && |FieldText(f)| == j + |Eol(cr)| - i
      && FieldLayout(f, i) == Header(Some(Span(i, colon - i)), Span(start, n))
  {
    hide Has, Tokens, Gaps, ValueOk, IsGapByte;
    var f := NamedFrom(buf, i, colon, start, n, j, cr);
    assert Gaps(f.trail) by { ValueTrail(f.val, f.trail); }
    NamedValue(buf, start, j, n);
    if n > 0 { assert f.val[0] == buf[start]; }
    HasSlice(buf, i, colon);
    HasSlice(buf, colon, colon + 1);
    assert buf[colon..colon + 1] == [58];
    HasSlice(buf, colon + 1, start);
    HasSlice(buf, start, j);
    assert f.val + f.trail == buf[start..j];
    NamedParts(buf, i, f);
  }

  lemma ValueTrail(val: seq<byte>, trail: seq<byte>)
    requires ValueOk(val, trail)
    ensures Gaps(trail)
  {
  }

  lemma FieldSound(buf: seq<byte>, i: nat, first: bool) returns (f: Field)
    requires i < |buf| && HeaderLine(buf, i, first).At?
    ensures FieldOk(f, first) && Has(buf, i, FieldText(f))
    ensures HeaderLine(buf, i, first) == At(i + |FieldText(f)|, FieldLayout(f, i))
  {
    if first || !IsGapByte(buf[i]) {
      f := NamedSound(buf, i, first);
    } else {
      f := FoldedSound(buf, i);
    }
  }

  /** What a header line cannot be: its name ends in a wrong character or is empty, or the value holds a
      control character. */
  predicate FieldFault(buf: seq<byte>, i: nat, first: bool)
    requires i < |buf|
  {
    if first || !IsGapByte(buf[i]) then
      NameFault(buf, i) || exists colon, start | i < colon < start < |buf| :: NameAt(buf, i, colon, start) && TextFault(buf, start)
    else TextFault(buf, i)
  }

  predicate NameFault(buf: seq<byte>, i: nat) {
    exists c | i <= c < |buf| :: NameEnds(buf, i, c) && (buf[c] != 58 || c == i)
  }

  predicate NameEnds(buf: seq<byte>, i: nat, c: nat)
    requires i <= c < |buf|
  {
    Tokens(buf[i..c]) && !IsTokenByte(buf[c])
  }

  /** A name, its colon, and blanks up to `start`. */
  predicate NameAt(buf: seq<byte>, i: nat, colon: nat, start: nat)
    requires i < colon < start < |buf|
  {
    Tokens(buf[i..colon]) && buf[colon] == 58 && Gaps(buf[colon + 1..start]) && !IsGapByte(buf[start])
  }

  lemma NameFaulty(buf: seq<byte>, i: nat)
    requires i < |buf|
    ensures HeaderName(buf, i).Bad? <==> NameFault(buf, i)
  {
    var c := TokenScan(buf, i, COLON);
    assert c < |buf| ==> NameEnds(buf, i, c);
    assert HeaderName(buf, i).Bad? <==> c < |buf| && (buf[c] != 58 || c == i) by { NameAtColon(buf, i); }
    forall c' | i <= c' < |buf| && NameEnds(buf, i, c') ensures c == c' {
      TokensEnd(buf, i, c, c');
    }
  }

  lemma NameAtColon(buf: seq<byte>, i: nat)
    requires i < |buf|
    ensures var colon := Token(buf, i, COLON); HeaderName(buf, i).Bad? <==> colon.Bad? || (colon.At? && colon.pos == i)
  {
    hide Token;
    var colon := Token(buf, i, COLON);
    if colon.At? { var g := GapScan(buf, colon.pos + 1); }
  }

  lemma NameThere(buf: seq<byte>, i: nat, colon: nat, start: nat)
    requires i < colon < start < |buf| && NameAt(buf, i, colon, start)
    ensures HeaderName(buf, i) == At(start, Span(i, colon - i))
  {
    var c := TokenScan(buf, i, COLON);
    TokensEnd(buf, i, c, colon);
    var g := GapScan(buf, colon + 1);
    GapsEnd(buf, colon + 1, g, start);
  }

  lemma FieldFaulty(buf: seq<byte>, i: nat, first: bool)
    requires i < |buf|
    ensures HeaderLine(buf, i, first).Bad? <==> FieldFault(buf, i, first)
  {
    hide HeaderName, Line, NameFault, TextFault, Trimmed;
    BytesExact(buf[i]);
    TextFaulty(buf, i);
    NameFaulty(buf, i);
    forall colon, start | i < colon < start < |buf| && NameAt(buf, i, colon, start)
      ensures HeaderName(buf, i) == At(start, Span(i, colon - i))
    {
      NameThere(buf, i, colon, start);
    }
    if HeaderName(buf, i).At? {
      var colon, start := NameSound(buf, i);
      assert NameAt(buf, i, colon, start);
      TextFaulty(buf, start);
    }
  }

  // ----- All fields -----

  lemma {:induction false} FieldsComplete(buf: seq<byte>, i: nat, fields: seq<Field>, cr: bool, n: nat, max: nat)
    requires i <= |buf| && Has(buf, i, FieldsText(fields) + Eol(cr)) && FieldsOk(fields, n == 0) && n + |fields| <= max
    ensures Headers(buf, i, n, max) == At(i + |FieldsText(fields)| + |Eol(cr)|, FieldsLayout(fields, i))
    decreases |fields|
  {
    hide Has, HeaderLine, FieldOk, FieldText, FieldLayout, Eol;
    HasJoin(buf, i, FieldsText(fields), Eol(cr));
    if fields == [] {
      EolByte(buf, i, cr);
      EolExact(buf, i);
    } else {
      var f, rest := fields[0], fields[1..];
      HasJoin(buf, i, FieldText(f), FieldsText(rest));
      FieldComplete(buf, i, f, n == 0);
      var next := i + |FieldText(f)|;
      HasJoin(buf, next, FieldsText(rest), Eol(cr));
      FieldWithin(buf, i, FieldText(f));
      forall k | 0 <= k < |rest| ensures FieldOk(rest[k], n + 1 == 0 && k == 0) {
        assert FieldOk(fields[k + 1], n == 0 && k + 1 == 0);
      }
      FieldsComplete(buf, next, rest, cr, n + 1, max);
    }
  }

  lemma FieldWithin(buf: seq<byte>, i: nat, text: seq<byte>)
    requires Has(buf, i, text)
    ensures i + |text| <= |buf|
  {
  }

  lemma {:induction false} FieldsSound(buf: seq<byte>, i: nat, n: nat, max: nat) returns (fields: seq<Field>, cr: bool)
    requires i <= |buf| && Headers(buf, i, n, max).At? && n <= max
    ensures Has(buf, i, FieldsText(fields) + Eol(cr)) && FieldsOk(fields, n == 0) && n + |fields| <= max
    ensures Headers(buf, i, n, max) == At(i + |FieldsText(fields)| + |Eol(cr)|, FieldsLayout(fields, i))
    decreases |buf| - i
  {
    hide Has, HeaderLine, FieldOk, FieldText, FieldLayout, Eol;
    if buf[i] == 13 || buf[i] == 10 {
      fields, cr := [], buf[i] == 13;
      EolExact(buf, i);
      assert FieldsText(fields) + Eol(cr) == Eol(cr);
    } else {
      var f := FieldSound(buf, i, n == 0);
      var rest;
      var next := i + |FieldText(f)|;
      FieldWithin(buf, i, FieldText(f));
      rest, cr := FieldsSound(buf, next, n + 1, max);
      fields := [f] + rest;
      HasJoin(buf, i, FieldText(f), FieldsText(rest) + Eol(cr));
      assert fields[1..] == rest;
      assert FieldText(f) + (FieldsText(rest) + Eol(cr)) == FieldsText(fields) + Eol(cr);
      forall k | 0 <= k < |fields| ensures FieldOk(fields[k], n == 0 && k == 0) {
        assert k > 0 ==> FieldOk(rest[k - 1], n + 1 == 0 && k - 1 == 0);
      }
    }
  }

  /** What cannot follow `k` fields at `j`: a carriage return alone, one field too many, or a line that is
      no field. */
  predicate NextFault(buf: seq<byte>, j: nat, k: nat, max: nat) {
    j < |buf| && if buf[j] == 13 || buf[j] == 10 then EolFault(buf, j) else k == max || FieldFault(buf, j, k == 0)
  }

  /** Good fields, and behind them what cannot follow. */
  ghost predicate FieldsFault(buf: seq<byte>, i: nat, n: nat, max: nat) {
    exists fields {:trigger FieldsThen(buf, i, fields, n, max)} :: FieldsThen(buf, i, fields, n, max)
  }

  predicate FieldsThen(buf: seq<byte>, i: nat, fields: seq<Field>, n: nat, max: nat) {
    && Has(buf, i, FieldsText(fields)) && FieldsOk(fields, n == 0) && n + |fields| <= max
    && NextFault(buf, i + |FieldsText(fields)|, n + |fields|, max)
  }

  lemma {:induction false} FieldsFaulty(buf: seq<byte>, i: nat, n: nat, max: nat)
    requires i <= |buf| && n <= max && Headers(buf, i, n, max).Bad?
    ensures FieldsFault(buf, i, n, max)
    decreases |buf| - i
  {
    hide Has, HeaderLine, FieldFault, FieldOk;
    if NextFault(buf, i, n, max) {
      assert FieldsThen(buf, i, [], n, max) by { HasNothing(buf, i); }
    } else {
      EolExact(buf, i);
      FieldFaulty(buf, i, n == 0);
      var f := FieldSound(buf, i, n == 0);
      var next := i + |FieldText(f)|;
      FieldWithin(buf, i, FieldText(f));
      FieldsFaulty(buf, next, n + 1, max);
      var rest :| FieldsThen(buf, next, rest, n + 1, max);
      MoreFields(buf, i, f, rest, n, max);
    }
  }

  lemma HasNothing(buf: seq<byte>, i: nat)
    requires i <= |buf|
    ensures Has(buf, i, [])
  {
  }

  lemma MoreFields(buf: seq<byte>, i: nat, f: Field, rest: seq<Field>, n: nat, max: nat)
    requires Has(buf, i, FieldText(f)) && FieldOk(f, n == 0) && FieldsThen(buf, i + |FieldText(f)|, rest, n + 1, max)
    ensures FieldsThen(buf, i, [f] + rest, n, max)
  {
    hide Has, FieldOk, NextFault;
    var fields := [f] + rest;
    assert fields[1..] == rest;
    HasJoin(buf, i, FieldText(f), FieldsText(rest));
    forall k | 0 <= k < |fields| ensures FieldOk(fields[k], n == 0 && k == 0) {
      assert k > 0 ==> FieldOk(rest[k - 1], n + 1 == 0 && k - 1 == 0);
    }
  }

  lemma {:induction false} FieldsRefused(buf: seq<byte>, i: nat, fields: seq<Field>, n: nat, max: nat)
    requires i <= |buf| && FieldsThen(buf, i, fields, n, max)
    ensures Headers(buf, i, n, max).Bad?
    decreases |fields|
  {
    hide Has, HeaderLine, FieldFault, FieldOk;
    if fields == [] {
      EolExact(buf, i);
      if buf[i] != 13 && buf[i] != 10 { FieldFaulty(buf, i, n == 0); }
    } else {
      var f, rest := fields[0], fields[1..];
      HasJoin(buf, i, FieldText(f), FieldsText(rest));
      FieldComplete(buf, i, f, n == 0);
      var next := i + |FieldText(f)|;
      FieldWithin(buf, i, FieldText(f));
      forall k | 0 <= k < |rest| ensures FieldOk(rest[k], n + 1 == 0 && k == 0) {
        assert FieldOk(fields[k + 1], n == 0 && k + 1 == 0);
      }
      assert FieldsThen(buf, next, rest, n + 1, max);
      FieldsRefused(buf, next, rest, n + 1, max);
    }
  }

  // ----- The request line -----

  lemma SpacesAre(buf: seq<byte>, i: nat, n: nat)
    requires Has(buf, i, Spaces(n))
    ensures i + n <= |buf| && buf[i..i + n] == Spaces(n)
  {
    HasIsSlice(buf, i, Spaces(n));
  }

  lemma HttpText()
    ensures VERSION == Ascii("HTTP/1.")
  {
  }

  lemma VersionParts(buf: seq<byte>, i: nat, minor: nat, cr: bool)
    requires minor <= 9
    ensures Has(buf, i, VersionText(minor, cr))
            <==> Has(buf, i, Ascii("HTTP/1.")) && Has(buf, i + 7, [48 + minor]) && Has(buf, i + 8, Eol(cr))
  {
    hide Has;
    HasJoin(buf, i, Ascii("HTTP/1."), [48 + minor] + Eol(cr));
    HasJoin(buf, i + 7, [48 + minor], Eol(cr));
  }

  lemma VersionComplete(buf: seq<byte>, i: nat, minor: nat, cr: bool)
    requires minor <= 9 && Has(buf, i, VersionText(minor, cr))
    ensures i < |buf| && buf[i] != 32 && VersionLine(buf, i) == At(i + |VersionText(minor, cr)|, minor)
  {
    VersionParts(buf, i, minor, cr);
    HttpText();
    HasIsSlice(buf, i, Ascii("HTTP/1."));
    assert buf[i + 7 + 0] == [48 + minor][0] && buf[i + 0] == Ascii("HTTP/1.")[0];
    EolByte(buf, i + 8, cr);
    EolExact(buf, i + 8);
  }

  lemma VersionSound(buf: seq<byte>, i: nat) returns (minor: nat, cr: bool)
    requires i <= |buf| && VersionLine(buf, i).At?
    ensures minor <= 9 && Has(buf, i, VersionText(minor, cr))
    ensures VersionLine(buf, i) == At(i + |VersionText(minor, cr)|, minor)
  {
    minor, cr := buf[i + 7] - 48, buf[i + 8] == 13;
    HttpText();
    EolExact(buf, i + 8);
    HasSlice(buf, i, i + 7);
    VersionParts(buf, i, minor, cr);
  }

  /** What a version cannot be, once nine bytes are there. */
  predicate VersionFault(buf: seq<byte>, i: nat) {
    i + 9 <= |buf| && (buf[i..i + 7] != Ascii("HTTP/1.") || !(48 <= buf[i + 7] <= 57) || EolFault(buf, i + 8))
  }

  lemma VersionFaulty(buf: seq<byte>, i: nat)
    requires i <= |buf|
    ensures VersionLine(buf, i).Bad? <==> VersionFault(buf, i)
  {
    HttpText();
    if i + 9 <= |buf| { EolExact(buf, i + 8); }
  }

  /** A method, the spaces behind it, and what is no space at `path`. */
  predicate MethodAt(buf: seq<byte>, i: nat, c: nat, path: nat) {
    i <= c < path < |buf| && Tokens(buf[i..c]) && buf[c..path] == Spaces(path - c) && buf[path] != 32
  }

  /** A path, the spaces behind it, and what is no space at `version`. */
  predicate PathAt(buf: seq<byte>, i: nat, c: nat, version: nat) {
    i < c < version < |buf| && Paths(buf[i..c]) && buf[c..version] == Spaces(version - c) && buf[version] != 32
  }

  lemma MethodThere(buf: seq<byte>, i: nat, c: nat, path: nat)
    requires MethodAt(buf, i, c, path)
    ensures Token(buf, i, SPACE) == At(c, Unit) && NotSpace(buf, c + 1) == At(path, Unit)
  {
    assert buf[c] == buf[c..path][0] == 32;
    BytesExact(32);
    var j := TokenScan(buf, i, SPACE);
    TokensEnd(buf, i, j, c);
    var k := SpaceScan(buf, c + 1);
    assert buf[c + 1..path] == buf[c..path][1..] == Spaces(path - (c + 1));
    SpacesEnd(buf, c + 1, k, path);
  }

  lemma MethodFound(buf: seq<byte>, i: nat)
    requires i <= |buf| && Token(buf, i, SPACE).At? && NotSpace(buf, Token(buf, i, SPACE).pos + 1).At?
    ensures var c := Token(buf, i, SPACE).pos; MethodAt(buf, i, c, NotSpace(buf, c + 1).pos)
  {
    BytesExact(32);
    var c := TokenScan(buf, i, SPACE);
    var path := SpaceScan(buf, c + 1);
    assert buf[c..path] == [32] + buf[c + 1..path] == Spaces(path - c);
  }

  lemma PathThere(buf: seq<byte>, i: nat, c: nat, version: nat)
    requires PathAt(buf, i, c, version)
    ensures Path(buf, i) == At(c, Unit) && NotSpace(buf, c + 1) == At(version, Unit)
  {
    assert buf[c] == buf[c..version][0] == 32;
    var j := PathScan(buf, i);
    PathsEnd(buf, i, j, c);
    var k := SpaceScan(buf, c + 1);
    assert buf[c + 1..version] == buf[c..version][1..] == Spaces(version - (c + 1));
    SpacesEnd(buf, c + 1, k, version);
  }

  lemma PathFound(buf: seq<byte>, i: nat)
    requires i < |buf| && buf[i] != 32 && Path(buf, i).At? && NotSpace(buf, Path(buf, i).pos + 1).At?
    ensures var c := Path(buf, i).pos; PathAt(buf, i, c, NotSpace(buf, c + 1).pos)
  {
    var c := PathScan(buf, i);
    var version := SpaceScan(buf, c + 1);
    assert buf[c..version] == [32] + buf[c + 1..version] == Spaces(version - c);
  }

  /** With the method and the path found, the version decides. */
  lemma LineSteps(buf: seq<byte>, i: nat, c: nat, p: nat, q: nat, v: nat)
    requires MethodAt(buf, i, c, p) && PathAt(buf, p, q, v)
    ensures ParseLine(buf, i)
            == if c == i then Bad
               else match VersionLine(buf, v)
                    case At(next, minor) => At(next, RequestLine(Span(i, c - i), Span(p, q - p), minor))
                    case Bad => Bad
                    case Partial => Partial
  {
    hide Token, NotSpace, Path, VersionLine;
    MethodThere(buf, i, c, p);
    PathThere(buf, p, q, v);
  }

  /** The parts of a request line one behind the other. */
  lemma LineParts(buf: seq<byte>, i: nat, m: Message)
    requires m.minor <= 9
    ensures var c := i + |m.meth|; var p := c + 1 + m.gap; var q := p + |m.path|; var v := q + 1 + m.gap2;
      Has(buf, i, LineText(m))
      <==> (Has(buf, i, m.meth) && Has(buf, c, Spaces(1 + m.gap)) && Has(buf, p, m.path)
            && Has(buf, q, Spaces(1 + m.gap2)) && Has(buf, v, VersionText(m.minor, m.cr)))
  {
    hide Has, VersionText;
    var text := VersionText(m.minor, m.cr);
    var c := i + |m.meth|;
    var p := c + 1 + m.gap;
    var q := p + |m.path|;
    HasJoin(buf, i, m.meth, Spaces(1 + m.gap) + (m.path + (Spaces(1 + m.gap2) + text)));
    HasJoin(buf, c, Spaces(1 + m.gap), m.path + (Spaces(1 + m.gap2) + text));
    HasJoin(buf, p, m.path, Spaces(1 + m.gap2) + text);
    HasJoin(buf, q, Spaces(1 + m.gap2), text);
  }

  /** Where the parts of a request line are found. */
  lemma LinePlaces(buf: seq<byte>, i: nat, m: Message)
    requires WellFormed(m) && Has(buf, i, LineText(m))
    ensures var c := i + |m.meth|; var p := c + 1 + m.gap; var q := p + |m.path|; var v := q + 1 + m.gap2;
      MethodAt(buf, i, c, p) && PathAt(buf, p, q, v) && Has(buf, v, VersionText(m.minor, m.cr)) && IsTokenByte(buf[i])
  {
    hide VersionText, IsTokenByte;
    LineParts(buf, i, m);
    var c := i + |m.meth|;
    var p := c + 1 + m.gap;
    var q := p + |m.path|;
    var v := q + 1 + m.gap2;
    assert buf[p + 0] == m.path[0] && buf[i + 0] == m.meth[0];
    assert v < |buf| && buf[v] != 32 by { VersionComplete(buf, v, m.minor, m.cr); }
    HasIsSlice(buf, i, m.meth);
    HasIsSlice(buf, p, m.path);
    SpacesAre(buf, c, 1 + m.gap);
    SpacesAre(buf, q, 1 + m.gap2);
  }

  lemma LineComplete(buf: seq<byte>, i: nat, m: Message)
    requires WellFormed(m) && Has(buf, i, LineText(m))
    ensures i < |buf| && buf[i] != 13 && buf[i] != 10
    ensures ParseLine(buf, i)
            == At(i + |LineText(m)|, RequestLine(Span(i, |m.meth|), Span(i + |m.meth| + 1 + m.gap, |m.path|), m.minor))
  {
    hide Has, VersionLine, ParseLine, VersionText;
    LinePlaces(buf, i, m);
    var c := i + |m.meth|;
    var p := c + 1 + m.gap;
    var q := p + |m.path|;
    var v := q + 1 + m.gap2;
    BytesExact(buf[i]);
    VersionComplete(buf, v, m.minor, m.cr);
    LineSteps(buf, i, c, p, q, v);
    LineLength(m);
  }

  lemma LineLength(m: Message)
    requires m.minor <= 9
    ensures |LineText(m)| == |m.meth| + 1 + m.gap + |m.path| + 1 + m.gap2 + |VersionText(m.minor, m.cr)|
  {
  }

  lemma LineFound(buf: seq<byte>, i: nat) returns (c: nat, p: nat, q: nat, v: nat)
    requires i <= |buf| && ParseLine(buf, i).At?
    ensures MethodAt(buf, i, c, p) && PathAt(buf, p, q, v) && c != i && VersionLine(buf, v).At?
  {
    hide Token, NotSpace, Path, VersionLine;
    c := Token(buf, i, SPACE).pos;
    p := NotSpace(buf, c + 1).pos;
    MethodFound(buf, i);
    q := Path(buf, p).pos;
    v := NotSpace(buf, q + 1).pos;
    PathFound(buf, p);
  }

  lemma LineSound(buf: seq<byte>, i: nat) returns (m: Message)
    requires i <= |buf| && ParseLine(buf, i).At?
    ensures WellFormed(m) && m.fields == [] && Has(buf, i, LineText(m))
    ensures ParseLine(buf, i)
            == At(i + |LineText(m)|, RequestLine(Span(i, |m.meth|), Span(i + |m.meth| + 1 + m.gap, |m.path|), m.minor))
  {
    hide ParseLine, VersionLine;
    var c, p, q, v := LineFound(buf, i);
    var minor, cr := VersionSound(buf, v);
    m := Message(None, buf[i..c], p - c - 1, buf[p..q], v - q - 1, minor, cr, [], false);
    LineSteps(buf, i, c, p, q, v);
    HasSlice(buf, i, c);
    HasSlice(buf, c, p);
    HasSlice(buf, p, q);
    HasSlice(buf, q, v);
    LineParts(buf, i, m);
    LineLength(m);
  }

  /** What a request line cannot be: its method or its path ends in a wrong character, or there is more
      behind them and the method is empty or the version wrong. */
  ghost predicate LineFault(buf: seq<byte>, i: nat) {
    || (exists c | i <= c < |buf| :: NameEnds(buf, i, c) && buf[c] != 32)
    || (exists c, p {:trigger MethodAt(buf, i, c, p)} :: MethodAt(buf, i, c, p) && BehindMethodFault(buf, i, c, p))
  }

  ghost predicate BehindMethodFault(buf: seq<byte>, i: nat, c: nat, p: nat) {
    || (exists q | p <= q < |buf| :: PathEnds(buf, p, q) && buf[q] != 32)
    || (exists q, v {:trigger PathAt(buf, p, q, v)} :: PathAt(buf, p, q, v) && (c == i || VersionFault(buf, v)))
  }

  predicate PathEnds(buf: seq<byte>, i: nat, c: nat)
    requires i <= c < |buf|
  {
    Paths(buf[i..c]) && !IsPathByte(buf[c])
  }

  lemma MethodFaulty(buf: seq<byte>, i: nat)
    requires i <= |buf|
    ensures Token(buf, i, SPACE).Bad? <==> exists c | i <= c < |buf| :: NameEnds(buf, i, c) && buf[c] != 32
  {
    BytesExact(32);
    var c := TokenScan(buf, i, SPACE);
    assert c < |buf| ==> NameEnds(buf, i, c);
    forall c' | i <= c' < |buf| && NameEnds(buf, i, c') ensures c == c' { TokensEnd(buf, i, c, c'); }
  }

  lemma PathFaulty(buf: seq<byte>, i: nat)
    requires i <= |buf|
    ensures Path(buf, i).Bad? <==> exists c | i <= c < |buf| :: PathEnds(buf, i, c) && buf[c] != 32
  {
    var c := PathScan(buf, i);
    assert c < |buf| ==> PathEnds(buf, i, c);
    forall c' | i <= c' < |buf| && PathEnds(buf, i, c') ensures c == c' { PathsEnd(buf, i, c, c'); }
  }

  lemma LineFaulty(buf: seq<byte>, i: nat)
    requires i <= |buf| && ParseLine(buf, i).Bad?
    ensures LineFault(buf, i)
  {
    hide Token, NotSpace, Path, VersionLine, NameEnds, PathEnds, MethodAt, PathAt, VersionFault;
    MethodFaulty(buf, i);
    if !Token(buf, i, SPACE).Bad? {
      var c := Token(buf, i, SPACE).pos;
      assert NotSpace(buf, c + 1).At? by { var k := SpaceScan(buf, c + 1); }
      var p := NotSpace(buf, c + 1).pos;
      MethodFound(buf, i);
      PathFaulty(buf, p);
      if !Path(buf, p).Bad? {
        var q := Path(buf, p).pos;
        assert NotSpace(buf, q + 1).At? by { var k := SpaceScan(buf, q + 1); }
        var v := NotSpace(buf, q + 1).pos;
        assert buf[p] != 32 by { var k := SpaceScan(buf, c + 1); }
        PathFound(buf, p);
        LineSteps(buf, i, c, p, q, v);
        VersionFaulty(buf, v);
      }
      assert BehindMethodFault(buf, i, c, p);
    }
  }

  lemma LineRefused(buf: seq<byte>, i: nat)
    requires i <= |buf| && LineFault(buf, i)
    ensures ParseLine(buf, i).Bad?
  {
    hide Token, NotSpace, Path, VersionLine, NameEnds, PathEnds, VersionFault;
    MethodFaulty(buf, i);
    if !Token(buf, i, SPACE).Bad? {
      var c, p :| MethodAt(buf, i, c, p) && BehindMethodFault(buf, i, c, p);
      MethodThere(buf, i, c, p);
      PathFaulty(buf, p);
      if !Path(buf, p).Bad? {
        var q, v :| PathAt(buf, p, q, v) && (c == i || VersionFault(buf, v));
        LineSteps(buf, i, c, p, q, v);
        VersionFaulty(buf, v);
      }
    }
  }

  // ----- Whole requests -----

  lemma EmptyExact(buf: seq<byte>, empty: Option<bool>)
    requires Has(buf, 0, EmptyText(empty))
    requires empty.None? ==> buf != [] && buf[0] != 13 && buf[0] != 10
    ensures SkipEmpty(buf) == At(|EmptyText(empty)|, Unit)
  {
    if empty.Some? {
      EolByte(buf, 0, empty.value);
      EolExact(buf, 0);
    }
  }

  lemma EmptySound(buf: seq<byte>) returns (empty: Option<bool>)
    requires SkipEmpty(buf).At?
    ensures Has(buf, 0, EmptyText(empty)) && SkipEmpty(buf) == At(|EmptyText(empty)|, Unit)
    ensures empty.None? ==> buf != [] && buf[0] != 13 && buf[0] != 10
  {
    if buf[0] == 13 || buf[0] == 10 {
      EolExact(buf, 0);
      empty := Some(buf[0] == 13);
    } else {
      empty := None;
    }
  }

  /** The parts of a request one behind the other. */
  lemma RequestParts(buf: seq<byte>, m: Message)
    requires m.minor <= 9
    ensures var start := |EmptyText(m.empty)|; var next := start + |LineText(m)|;
      Has(buf, 0, Encode(m))
      <==> Has(buf, 0, EmptyText(m.empty)) && Has(buf, start, LineText(m)) && Has(buf, next, FieldsText(m.fields) + Eol(m.lastCr))
  {
    hide Has, LineText, FieldsText, Eol;
    var rest := FieldsText(m.fields) + Eol(m.lastCr);
    HasJoin(buf, 0, EmptyText(m.empty), LineText(m) + rest);
    HasJoin(buf, |EmptyText(m.empty)|, LineText(m), rest);
  }

  lemma ParseAt(buf: seq<byte>, m: Message, max: nat)
    requires WellFormed(m) && |m.fields| <= max && Has(buf, 0, Encode(m))
    ensures Parse(buf, max) == At(|Encode(m)|, Layout(m))
  {
    hide ParseLine, Headers, WellFormed, SkipEmpty, Has, LineText, FieldsText, EmptyText, FieldsOk, FieldsLayout;
    FieldsOfWellFormed(m);
    RequestParts(buf, m);
    var start := |EmptyText(m.empty)|;
    LineComplete(buf, start, m);
    if m.empty.None? { NoEmptyText(); }
    EmptyExact(buf, m.empty);
    var next := start + |LineText(m)|;
    FieldWithin(buf, start, LineText(m));
    FieldsComplete(buf, next, m.fields, m.lastCr, 0, max);
  }

  lemma NoEmptyText()
    ensures EmptyText(None) == []
  {
  }

  /** The text of a request is parsed to its parts, whatever follows. */
  lemma ParseComplete(m: Message, rest: seq<byte>, max: nat)
    requires WellFormed(m) && |m.fields| <= max
    ensures Parse(Encode(m) + rest, max) == At(|Encode(m)|, Layout(m))
  {
    hide Parse, Encode, Layout;
    HasPrefix(Encode(m) + rest, Encode(m));
    ParseAt(Encode(m) + rest, m, max);
  }

  lemma FieldsOfWellFormed(m: Message)
    requires WellFormed(m)
    ensures m.minor <= 9 && FieldsOk(m.fields, true)
  {
  }

  /** Every request that is parsed begins with the text of what was returned, at the places that were
      returned. */
  lemma ParseSound(buf: seq<byte>, max: nat) returns (m: Message)
    requires Parse(buf, max).At?
    ensures WellFormed(m) && |m.fields| <= max
    ensures |Encode(m)| <= |buf| && buf[..|Encode(m)|] == Encode(m)
    ensures Parse(buf, max) == At(|Encode(m)|, Layout(m))
  {
    hide ParseLine, Headers, SkipEmpty, Has, LineText, FieldsOk, FieldsText, FieldsLayout, Eol;
    var empty := EmptySound(buf);
    var start := |EmptyText(empty)|;
    var line := LineSound(buf, start);
    var next := start + |LineText(line)|;
    var fields, cr := FieldsSound(buf, next, 0, max);
    m := line.(empty := empty, fields := fields, lastCr := cr);
    assert LineText(m) == LineText(line) by { SameLine(line, m); }
    RequestParts(buf, m);
    HasPrefix(buf, Encode(m));
  }

  lemma SameLine(a: Message, b: Message)
    requires a.meth == b.meth && a.gap == b.gap && a.path == b.path && a.gap2 == b.gap2 && a.minor == b.minor <= 9 && a.cr == b.cr
    ensures LineText(a) == LineText(b)
  {
  }

  /** The span lies on this text. */
  predicate Shows(buf: seq<byte>, v: Span, text: seq<byte>) {
    v.start + v.len <= |buf| && buf[v.start..v.start + v.len] == text
  }

  predicate FieldShows(buf: seq<byte>, h: Header, f: Field) {
    match f
    case Named(name, _, val, _, _) => h.name.Some? && Shows(buf, h.name.value, name) && Shows(buf, h.val, val)
    case Folded(val, _, _) => h.name.None? && Shows(buf, h.val, val)
  }

  lemma {:induction false} FieldsShow(buf: seq<byte>, i: nat, fields: seq<Field>, k: nat)
    requires k < |fields| && Has(buf, i, FieldsText(fields))
    ensures FieldShows(buf, FieldsLayout(fields, i)[k], fields[k])
    decreases k
  {
    hide Has, FieldShows, FieldLayout, FieldText;
    var f, rest := fields[0], fields[1..];
    HasJoin(buf, i, FieldText(f), FieldsText(rest));
    if k == 0 {
      FieldShown(buf, i, f);
    } else {
      FieldsShow(buf, i + |FieldText(f)|, rest, k - 1);
    }
  }

  lemma FieldShown(buf: seq<byte>, i: nat, f: Field)
    requires Has(buf, i, FieldText(f))
    ensures FieldShows(buf, FieldLayout(f, i), f)
  {
    hide Has;
    if f.Named? {
      NamedParts(buf, i, f);
      HasIsSlice(buf, i, f.name);
      HasJoin(buf, i + |f.name| + 1 + |f.lead|, f.val, f.trail);
      HasIsSlice(buf, i + |f.name| + 1 + |f.lead|, f.val);
    } else {
      HasJoin(buf, i, f.val + f.trail, Eol(f.cr));
      HasJoin(buf, i, f.val, f.trail);
      HasIsSlice(buf, i, f.val);
    }
  }

  /** The spans that are returned lie on the method, the path, and the names and values of the fields. */
  lemma LayoutShows(m: Message, rest: seq<byte>)
    requires WellFormed(m)
    ensures var buf, r := Encode(m) + rest, Layout(m);
      && Shows(buf, r.meth, m.meth) && Shows(buf, r.path, m.path) && r.minor == m.minor
      && |r.headers| == |m.fields| && forall k | 0 <= k < |m.fields| :: FieldShows(buf, r.headers[k], m.fields[k])
  {
    hide Has, WellFormed, FieldShows, FieldsText, VersionText, Eol, FieldsLayout, FieldsOk, Encode;
    FieldsOfWellFormed(m);
    var buf := Encode(m) + rest;
    HasPrefix(buf, Encode(m));
    RequestParts(buf, m);
    var start := |EmptyText(m.empty)|;
    var next := start + |LineText(m)|;
    LineParts(buf, start, m);
    HasIsSlice(buf, start, m.meth);
    HasIsSlice(buf, start + |m.meth| + 1 + m.gap, m.path);
    FieldWithin(buf, start, LineText(m));
    HasJoin(buf, next, FieldsText(m.fields), Eol(m.lastCr));
    forall k | 0 <= k < |m.fields| ensures FieldShows(buf, Layout(m).headers[k], m.fields[k]) {
      FieldsShow(buf, next, m.fields, k);
    }
  }

  /** Why a text is turned away: a carriage return alone before it, a fault in its request line, or a
      fault in the fields behind a good one. */
  ghost predicate Faulty(buf: seq<byte>, max: nat) {
    || (|buf| > 1 && buf[0] == 13 && buf[1] != 10)
    || (exists start :: EmptyBefore(buf, start) && RestFault(buf, start, max))
  }

  ghost predicate RestFault(buf: seq<byte>, start: nat, max: nat) {
    LineFault(buf, start) || exists line :: FieldsFaultBehind(buf, start, line, max)
  }

  /** At most one empty line up to `start`, and as many as there are. */
  predicate EmptyBefore(buf: seq<byte>, start: nat) {
    && buf != []
    && if buf[0] == 10 then start == 1 else if buf[0] == 13 then |buf| > 1 && buf[1] == 10 && start == 2 else start == 0
  }

  ghost predicate FieldsFaultBehind(buf: seq<byte>, start: nat, line: Message, max: nat) {
    WellFormed(line) && Has(buf, start, LineText(line)) && FieldsFault(buf, start + |LineText(line)|, 0, max)
  }

  lemma EmptyFaulty(buf: seq<byte>)
    ensures SkipEmpty(buf).Bad? <==> |buf| > 1 && buf[0] == 13 && buf[1] != 10
    ensures SkipEmpty(buf).At? ==> EmptyBefore(buf, SkipEmpty(buf).pos)
    ensures forall start :: EmptyBefore(buf, start) ==> SkipEmpty(buf).At? && SkipEmpty(buf).pos == start
  {
  }

  /** The answer is -1 if and only if the text is faulty. */
  lemma BadExact(buf: seq<byte>, max: nat)
    ensures Parse(buf, max).Bad? <==> Faulty(buf, max)
  {
    hide SkipEmpty, ParseLine, Headers, RestFault, EmptyBefore;
    EmptyFaulty(buf);
    if SkipEmpty(buf).At? {
      var start := SkipEmpty(buf).pos;
      BadBehind(buf, start, max);
    }
  }

  lemma BadBehind(buf: seq<byte>, start: nat, max: nat)
    requires start <= |buf|
    ensures (ParseLine(buf, start).Bad? || (ParseLine(buf, start).At? && Headers(buf, ParseLine(buf, start).pos, 0, max).Bad?))
            <==> RestFault(buf, start, max)
  {
    hide ParseLine, Headers, LineFault, FieldsFault, Has, LineText, WellFormed;
    if LineFault(buf, start) { LineRefused(buf, start); }
    if ParseLine(buf, start).Bad? { LineFaulty(buf, start); }
    if ParseLine(buf, start).At? && Headers(buf, ParseLine(buf, start).pos, 0, max).Bad? {
      var line := LineSound(buf, start);
      FieldsFaulty(buf, ParseLine(buf, start).pos, 0, max);
      assert FieldsFaultBehind(buf, start, line, max);
    }
    forall line | FieldsFaultBehind(buf, start, line, max)
      ensures ParseLine(buf, start).At? && Headers(buf, ParseLine(buf, start).pos, 0, max).Bad?
    {
      FieldsOfWellFormed(line);
      LineComplete(buf, start, line);
      FieldWithin(buf, start, LineText(line));
      FaultRefused(buf, start + |LineText(line)|, max);
    }
  }

  lemma FaultRefused(buf: seq<byte>, i: nat, max: nat)
    requires i <= |buf| && FieldsFault(buf, i, 0, max)
    ensures Headers(buf, i, 0, max).Bad?
  {
    hide FieldsThen;
    var fields :| FieldsThen(buf, i, fields, 0, max);
    FieldsRefused(buf, i, fields, 0, max);
  }
}
