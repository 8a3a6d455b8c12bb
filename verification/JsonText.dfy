/** The strings that the parser of `src/runtime/cJSON.c` reads, as a grammar of their own: section 7 of
    RFC 8259 with section 3 of RFC 3629, and what the code makes of wrong digits. */
module JsonText {
  import opened JsonString
  import opened Wrappers

  // ----- Numbers and code points -----

  const LOWER: string := "0123456789abcdef"
  const UPPER: string := "0123456789ABCDEF"

  predicate IsDigit(b: byte, v: nat) {
    v < 16 && (b == LOWER[v] as int || b == UPPER[v] as int)
  }

  lemma HexExact(b: byte, v: nat)
    ensures HexValue(b) == Some(v) <==> IsDigit(b, v)
  {
  }

  /** Four bytes behind `\u` denote the number of their four hexadecimal digits, and zero if one of them
      is no digit. */
  ghost predicate Unit(s: seq<byte>, h: nat)
    requires |s| == 4
  {
    || (exists a: nat, b: nat, c: nat, d: nat ::
          IsDigit(s[0], a) && IsDigit(s[1], b) && IsDigit(s[2], c) && IsDigit(s[3], d) && h == a * 4096 + b * 256 + c * 16 + d)
    || (h == 0 && exists k | 0 <= k < 4 :: NoDigit(s[k]))
  }

  ghost predicate NoDigit(b: byte) {
    forall v: nat :: !IsDigit(b, v)
  }

  lemma NoDigitExact(b: byte)
    ensures NoDigit(b) <==> HexValue(b).None?
  {
    forall v: nat ensures HexValue(b) == Some(v) <==> IsDigit(b, v) { HexExact(b, v); }
    if HexValue(b).Some? { assert IsDigit(b, HexValue(b).value); }
  }

  lemma UnitOfDigits(u: seq<byte>, h: nat, a: nat, b: nat, c: nat, d: nat)
    requires |u| == 4 && IsDigit(u[0], a) && IsDigit(u[1], b) && IsDigit(u[2], c) && IsDigit(u[3], d)
    ensures Unit(u, h) <==> h == a * 4096 + b * 256 + c * 16 + d
  {
    hide IsDigit, HexValue;
    forall v: nat ensures IsDigit(u[0], v) <==> v == a { HexExact(u[0], v); HexExact(u[0], a); }
    forall v: nat ensures IsDigit(u[1], v) <==> v == b { HexExact(u[1], v); HexExact(u[1], b); }
    forall v: nat ensures IsDigit(u[2], v) <==> v == c { HexExact(u[2], v); HexExact(u[2], c); }
    forall v: nat ensures IsDigit(u[3], v) <==> v == d { HexExact(u[3], v); HexExact(u[3], d); }
    forall k | 0 <= k < 4 ensures !NoDigit(u[k]) {
      assert k == 0 || k == 1 || k == 2 || k == 3;
    }
  }

  lemma UnitOfNone(u: seq<byte>, h: nat, k: nat)
    requires |u| == 4 && k < 4 && NoDigit(u[k])
    ensures Unit(u, h) <==> h == 0
  {
    hide IsDigit;
  }

  lemma UnitExact(s: seq<byte>, i: nat, h: nat)
    requires i + 4 <= |s|
    ensures Hex4(s, i) == h <==> Unit(s[i..i + 4], h)
  {
    hide IsDigit, NoDigit, HexValue, Unit;
    var u := s[i..i + 4];
    assert u[0] == s[i] && u[1] == s[i + 1] && u[2] == s[i + 2] && u[3] == s[i + 3];
    if HexValue(u[0]).Some? && HexValue(u[1]).Some? && HexValue(u[2]).Some? && HexValue(u[3]).Some? {
      var a, b, c, d := HexValue(u[0]).value, HexValue(u[1]).value, HexValue(u[2]).value, HexValue(u[3]).value;
      HexExact(u[0], a);
      HexExact(u[1], b);
      HexExact(u[2], c);
      HexExact(u[3], d);
      UnitOfDigits(u, h, a, b, c, d);
    } else {
      var k :| 0 <= k < 4 && HexValue(u[k]).None?;
      NoDigitExact(u[k]);
      UnitOfNone(u, h, k);
    }
  }

  /** The bytes are the UTF-8 form of the code point. */
  predicate IsUtf8(bytes: seq<byte>, point: nat) {
    match |bytes|
    case 1 => point < 0x80 && point == Bits(bytes[0], 0)
    case 2 => 0x80 <= point < 0x800 && Follows(bytes[1]) && point == Bits(bytes[0], 0xC0) * 0x40 + Bits(bytes[1], 0x80)
    case 3 =>
      && 0x800 <= point < 0x10000 && Follows(bytes[1]) && Follows(bytes[2])
      && point == Bits(bytes[0], 0xE0) * 0x1000 + Bits(bytes[1], 0x80) * 0x40 + Bits(bytes[2], 0x80)
    case 4 =>
      && 0x10000 <= point < 0x110000 && Follows(bytes[1]) && Follows(bytes[2]) && Follows(bytes[3])
      && point == Bits(bytes[0], 0xF0) * 0x40000 + Bits(bytes[1], 0x80) * 0x1000 + Bits(bytes[2], 0x80) * 0x40 + Bits(bytes[3], 0x80)
    case _ => false
  }

  /** What a byte holds besides its mark. */
  function Bits(b: byte, mark: int): int { b as int - mark }

  predicate Follows(b: byte) { 0x80 <= b < 0xC0 }

  /** A decoder of UTF-8 that reads the code point from the bits of the bytes gets it back, and there is no
      other form. */
  lemma Utf8Exact(bytes: seq<byte>, point: nat)
    requires point < 0x110000
    ensures IsUtf8(bytes, point) <==> bytes == Utf8(point)
  {
    Utf8Is(point);
    if IsUtf8(bytes, point) { Utf8Only(bytes, Utf8(point), point); }
  }

  lemma Utf8Is(point: nat)
    requires point < 0x110000
    ensures IsUtf8(Utf8(point), point)
  {
    assert point == point / 64 * 64 + point % 64;
    assert point / 64 == point / 4096 * 64 + point / 64 % 64 by { DivTwice(point); }
    assert point / 4096 == point / 262144 * 64 + point / 4096 % 64 by { DivTwice(point / 64); DivTwice(point); DivThrice(point); }
  }

  lemma DivTwice(n: nat)
    ensures n / 64 / 64 == n / 4096
  {
  }

  lemma DivThrice(n: nat)
    ensures n / 4096 / 64 == n / 262144
  {
  }

  /** A number has one last digit to base 64, and one number before it. */
  lemma LastDigit(x: int, y: int, x': int, y': int)
    requires 0 <= y < 64 && 0 <= y' < 64 && 64 * x + y == 64 * x' + y'
    ensures x == x' && y == y'
  {
  }

  lemma Utf8Only(a: seq<byte>, b: seq<byte>, point: nat)
    requires IsUtf8(a, point) && IsUtf8(b, point)
    ensures a == b
  {
    assert |a| == |b|;
    if |a| == 2 {
      LastDigit(Bits(a[0], 0xC0), Bits(a[1], 0x80), Bits(b[0], 0xC0), Bits(b[1], 0x80));
    } else if |a| == 3 {
      Last2(Bits(a[0], 0xE0), Bits(a[1], 0x80), Bits(a[2], 0x80), Bits(b[0], 0xE0), Bits(b[1], 0x80), Bits(b[2], 0x80));
    } else if |a| == 4 {
      var x, y := Bits(a[0], 0xF0) * 0x40 + Bits(a[1], 0x80), Bits(b[0], 0xF0) * 0x40 + Bits(b[1], 0x80);
      Last2(x, Bits(a[2], 0x80), Bits(a[3], 0x80), y, Bits(b[2], 0x80), Bits(b[3], 0x80));
      LastDigit(Bits(a[0], 0xF0), Bits(a[1], 0x80), Bits(b[0], 0xF0), Bits(b[1], 0x80));
    }
  }

  lemma Last2(x: int, y: int, z: int, x': int, y': int, z': int)
    requires 0 <= y < 64 && 0 <= y' < 64 && 0 <= z < 64 && 0 <= z' < 64
    requires x * 4096 + y * 64 + z == x' * 4096 + y' * 64 + z'
    ensures x == x' && y == y' && z == z'
  {
    LastDigit(64 * x + y, z, 64 * x' + y', z');
    LastDigit(x, y, x', y');
  }

  // ----- Strings -----

  /** The escapes of one character and the characters that they stand for. */
  predicate Stands(e: byte, c: byte) {
    || (e == 'b' as int && c == 8)
    || (e == 't' as int && c == 9)
    || (e == 'n' as int && c == 10)
    || (e == 'f' as int && c == 12)
    || (e == 'r' as int && c == 13)
    || (e == c && e in ['"' as int, '\\' as int, '/' as int])
  }

  lemma SimpleExact(e: byte, c: byte)
    ensures Simple(e) == Some(c) <==> Stands(e, c)
  {
  }

  /** A body in which every quote is behind a backslash, and every backslash before something. */
  predicate Quoted(body: seq<byte>) {
    if body == [] then true
    else if body[0] == BACKSLASH then |body| >= 2 && Quoted(body[2..])
    else body[0] != QUOTE && Quoted(body[1..])
  }

  /** `bytes` are the first of `text`, and are the UTF-8 form of the code point. */
  predicate Begins(text: seq<byte>, n: nat, point: nat) {
    n <= |text| && IsUtf8(text[..n], point)
  }

  predicate IsEscape(body: seq<byte>, at: nat) {
    at + 6 <= |body| && body[at] == BACKSLASH && body[at + 1] == 'u' as int
  }

  /** What a body stands for: a byte for itself, a short escape for its character, and a long one, or two
      that are a surrogate pair, for the UTF-8 form of its code point.  A backslash at the very end, which
      only an escape with wrong digits can leave there, takes the closing quote with it. */
  ghost predicate Content(body: seq<byte>, text: seq<byte>)
    decreases |body|, 3
  {
    if body == [] then text == []
    else if body[0] != BACKSLASH then text != [] && text[0] == body[0] && Content(body[1..], text[1..])
    else if |body| == 1 then text == [QUOTE]
    else if body[1] != 'u' as int then text != [] && Stands(body[1], text[0]) && Content(body[2..], text[1..])
    else
      && IsEscape(body, 0)
      && exists unit: nat :: Unit(body[2..6], unit) && SomeEscaped(body, text, unit)
  }

  ghost predicate SomeEscaped(body: seq<byte>, text: seq<byte>, unit: nat)
    requires |body| >= 6
    decreases |body|, 2
  {
    exists n: nat :: Escaped(body, text, unit, n)
  }

  /** A long escape, or two, that yields the first `n` bytes of `text`. */
  ghost predicate Escaped(body: seq<byte>, text: seq<byte>, unit: nat, n: nat)
    requires |body| >= 6
    decreases |body|, 1
  {
    OneUnit(body, text, unit, n) || TwoUnits(body, text, unit, n)
  }

  /** A unit that is no surrogate. */
  ghost predicate OneUnit(body: seq<byte>, text: seq<byte>, unit: nat, n: nat)
    requires |body| >= 6
    decreases |body|, 0
  {
    !(0xD800 <= unit <= 0xDFFF) && Begins(text, n, unit) && Content(body[6..], text[n..])
  }

  /** A high surrogate and a low one. */
  ghost predicate TwoUnits(body: seq<byte>, text: seq<byte>, high: nat, n: nat)
    requires |body| >= 6
    decreases |body|, 0
  {
    && 0xD800 <= high <= 0xDBFF && IsEscape(body, 6)
    && (exists low: nat :: LowUnit(body, low) && Begins(text, n, 0x10000 + (high - 0xD800) * 0x400 + (low - 0xDC00)))
    && Content(body[12..], text[n..])
  }

  ghost predicate LowUnit(body: seq<byte>, low: nat)
    requires |body| >= 12
  {
    0xDC00 <= low <= 0xDFFF && Unit(body[8..12], low)
  }

  // ----- The parser reads exactly these -----

  /** The first pass ends at the quote that closes a body. */
  lemma {:induction false} CloseExact(s: seq<byte>, i: nat, end: nat)
    requires i <= end < |s|
    ensures Close(s, i).Some? && Close(s, i).value.0 == end <==> Quoted(s[i..end]) && s[end] == QUOTE
    decreases end - i
  {
    var body := s[i..end];
    if i < end {
      assert body[0] == s[i];
      if s[i] == BACKSLASH {
        if i + 2 <= end {
          assert body[2..] == s[i + 2..end];
          CloseExact(s, i + 2, end);
        }
      } else if s[i] != QUOTE {
        assert body[1..] == s[i + 1..end];
        CloseExact(s, i + 1, end);
      }
    }
  }

  /** The second pass yields `text` if and only if its next piece does so, and the rest the rest. */
  lemma UnescapeNext(s: seq<byte>, i: nat, end: nat, text: seq<byte>, written: seq<byte>, read: nat)
    requires i < end < |s| && Piece(s, i, end) == Some((written, read))
    ensures Unescape(s, i, end) == Some(text)
            <==> |written| <= |text| && text[..|written|] == written && Unescape(s, i + read, end) == Some(text[|written|..])
  {
    hide Piece;
    if |written| <= |text| && text[..|written|] == written {
      assert text == written + text[|written|..];
    }
    var rest := Unescape(s, i + read, end);
    if rest.Some? && text == written + rest.value {
      assert text[|written|..] == rest.value && text[..|written|] == written;
    }
  }

  /** The second pass makes of a body what it stands for. */
  lemma {:induction false} UnescapeExact(s: seq<byte>, i: nat, end: nat, text: seq<byte>)
    requires i <= end < |s| && s[end] == QUOTE
    ensures Unescape(s, i, end) == Some(text) <==> Content(s[i..end], text)
    decreases end - i, 1
  {
    hide Utf16, Simple, Stands, Escaped;
    var body := s[i..end];
    if i < end {
      assert body[0] == s[i];
      if s[i] != BACKSLASH {
        UnescapeNext(s, i, end, text, [s[i]], 1);
        assert body[1..] == s[i + 1..end];
        if text != [] { UnescapeExact(s, i + 1, end, text[1..]); }
      } else if i + 1 == end {
        QuoteStands();
        UnescapeNext(s, i, end, text, [QUOTE], 2);
        assert Unescape(s, i + 2, end) == Some([]);
        assert |text| == 1 ==> text[1..] == [];
      } else if s[i + 1] != 'u' as int {
        assert body[1] == s[i + 1] && body[2..] == s[i + 2..end];
        ShortExact(s, i, end, text);
      } else {
        assert body[1] == s[i + 1];
        LongExact(s, i, end, text);
      }
    }
  }

  lemma QuoteStands()
    ensures Simple(QUOTE) == Some(QUOTE)
  {
  }

  lemma {:induction false} ShortExact(s: seq<byte>, i: nat, end: nat, text: seq<byte>)
    requires i + 2 <= end < |s| && s[end] == QUOTE && s[i] == BACKSLASH && s[i + 1] != 'u' as int
    ensures Unescape(s, i, end) == Some(text)
            <==> text != [] && Stands(s[i + 1], text[0]) && Content(s[i + 2..end], text[1..])
    decreases end - i, 0, 0
  {
    hide Simple, Stands, Content, Unescape, Utf16;
    if text != [] {
      SimpleExact(s[i + 1], text[0]);
      UnescapeExact(s, i + 2, end, text[1..]);
    }
    var c := Simple(s[i + 1]);
    if c.Some? {
      UnescapeNext(s, i, end, text, [c.value], 2);
    } else {
      PieceNone(s, i, end);
    }
  }

  lemma PieceNone(s: seq<byte>, i: nat, end: nat)
    requires i < end < |s| && Piece(s, i, end).None?
    ensures Unescape(s, i, end).None?
  {
  }

  lemma {:induction false} LongExact(s: seq<byte>, i: nat, end: nat, text: seq<byte>)
    requires i + 2 <= end < |s| && s[end] == QUOTE && s[i] == BACKSLASH && s[i + 1] == 'u' as int
    ensures Unescape(s, i, end) == Some(text) <==> Content(s[i..end], text)
    decreases end - i, 0, 2
  {
    var body := s[i..end];
    assert body[0] == s[i] && body[1] == s[i + 1];
    if end - i < 6 {
      PieceNone(s, i, end);
    } else {
      hide Unescape, Unit, SomeEscaped, Hex4, Utf16;
      var first := Hex4(s, i + 2);
      SliceOfSlice(s, i, end, 2, 6);
      forall unit: nat ensures Unit(body[2..6], unit) <==> unit == first { UnitExact(s, i + 2, unit); }
      assert Content(body, text) <==> SomeEscaped(body, text, first);
      if 0xD800 <= first <= 0xDBFF {
        PairExact(s, i, end, text);
      } else {
        OneExact(s, i, end, text);
      }
    }
  }

  lemma SliceOfSlice(s: seq<byte>, i: nat, end: nat, a: nat, b: nat)
    requires i <= end <= |s| && a <= b <= end - i
    ensures s[i..end][a..b] == s[i + a..i + b]
    ensures s[i..end][a..] == s[i + a..end]
  {
    var left, right := s[i..end][a..b], s[i + a..i + b];
    assert |left| == |right|;
    forall k | 0 <= k < |left| ensures left[k] == right[k] {
      assert left[k] == s[i..end][a + k] == s[i + (a + k)];
    }
  }

  /** An escape whose unit begins no surrogate pair. */
  lemma {:induction false} OneExact(s: seq<byte>, i: nat, end: nat, text: seq<byte>)
    requires i + 6 <= end < |s| && s[end] == QUOTE && s[i] == BACKSLASH && s[i + 1] == 'u' as int
    requires !(0xD800 <= Hex4(s, i + 2) <= 0xDBFF)
    ensures Unescape(s, i, end) == Some(text) <==> SomeEscaped(s[i..end], text, Hex4(s, i + 2))
    decreases end - i, 0, 1
  {
    hide Unescape, Unit, Hex4, Content, Utf8, IsUtf8;
    var body, first := s[i..end], Hex4(s, i + 2);
    if 0xDC00 <= first <= 0xDFFF {
      PieceNone(s, i, end);
      assert forall n: nat :: !Escaped(body, text, first, n);
    } else {
      var bytes := Utf8(first);
      UnescapeNext(s, i, end, text, bytes, 6);
      SliceOfSlice(s, i, end, 6, 6);
      forall n: nat
        ensures Escaped(body, text, first, n) <==> n <= |text| && text[..n] == bytes && Unescape(s, i + 6, end) == Some(text[n..])
      {
        if n <= |text| {
          Utf8Exact(text[..n], first);
          UnescapeExact(s, i + 6, end, text[n..]);
        }
      }
      assert Unescape(s, i, end) == Some(text) ==> Escaped(body, text, first, |bytes|);
    }
  }

  /** An escape whose unit is a high surrogate. */
  lemma {:induction false} PairExact(s: seq<byte>, i: nat, end: nat, text: seq<byte>)
    requires i + 6 <= end < |s| && s[end] == QUOTE && s[i] == BACKSLASH && s[i + 1] == 'u' as int
    requires 0xD800 <= Hex4(s, i + 2) <= 0xDBFF
    ensures Unescape(s, i, end) == Some(text) <==> SomeEscaped(s[i..end], text, Hex4(s, i + 2))
    decreases end - i, 0, 1
  {
    hide Unescape, Unit, Hex4, Content, Utf8, IsUtf8;
    var body, first := s[i..end], Hex4(s, i + 2);
    if end - i < 12 || s[i + 6] != BACKSLASH || s[i + 7] != 'u' as int {
      assert !IsEscape(body, 6);
      PieceNone(s, i, end);
      assert forall n: nat :: !Escaped(body, text, first, n);
    } else {
      var second := Hex4(s, i + 8);
      assert body[6] == s[i + 6] && body[7] == s[i + 7];
      SliceOfSlice(s, i, end, 8, 12);
      SliceOfSlice(s, i, end, 12, 12);
      forall low: nat ensures LowUnit(body, low) <==> low == second && 0xDC00 <= low <= 0xDFFF { UnitExact(s, i + 8, low); }
      if 0xDC00 <= second <= 0xDFFF {
        SurrogatesExact(s, i, end, text, first, second);
      } else {
        PieceNone(s, i, end);
        assert forall n: nat :: !Escaped(body, text, first, n);
      }
    }
  }

  lemma {:induction false} SurrogatesExact(s: seq<byte>, i: nat, end: nat, text: seq<byte>, high: nat, low: nat)
    requires i + 12 <= end < |s| && s[end] == QUOTE && s[i] == BACKSLASH && s[i + 1] == 'u' as int
    requires s[i + 6] == BACKSLASH && s[i + 7] == 'u' as int
    requires high == Hex4(s, i + 2) && low == Hex4(s, i + 8) && 0xD800 <= high <= 0xDBFF && 0xDC00 <= low <= 0xDFFF
    requires forall l: nat :: LowUnit(s[i..end], l) <==> l == low
    ensures Unescape(s, i, end) == Some(text) <==> SomeEscaped(s[i..end], text, high)
    decreases end - i, 0, 0
  {
    hide Unescape, Unit, Hex4, Content, Utf8, IsUtf8, LowUnit;
    var body := s[i..end];
    var point := 0x10000 + (high - 0xD800) * 0x400 + (low - 0xDC00);
    var bytes := Utf8(point);
    UnescapeNext(s, i, end, text, bytes, 12);
    SliceOfSlice(s, i, end, 12, 12);
    assert IsEscape(body, 6) by { assert body[6] == s[i + 6] && body[7] == s[i + 7]; }
    forall n: nat
      ensures Escaped(body, text, high, n) <==> n <= |text| && text[..n] == bytes && Unescape(s, i + 12, end) == Some(text[n..])
    {
      if n <= |text| {
        Utf8Exact(text[..n], point);
        UnescapeExact(s, i + 12, end, text[n..]);
      }
      assert LowUnit(body, low);
    }
    assert Unescape(s, i, end) == Some(text) ==> Escaped(body, text, high, |bytes|);
  }

  /** A body between quotes that stands for `text`, and what follows it. */
  ghost predicate IsString(s: seq<byte>, body: seq<byte>, text: seq<byte>, rest: seq<byte>) {
    s == [QUOTE] + body + [QUOTE] + rest && Quoted(body) && Content(body, text)
  }

  /** The parser yields a text if and only if a string that stands for it is what it was given. */
  lemma ParseExact(s: seq<byte>, text: seq<byte>, rest: seq<byte>)
    ensures Parse(s) == Some((text, rest)) <==> exists body :: IsString(s, body, text, rest)
  {
    hide Close, Unescape, Content, Quoted;
    if Parse(s) == Some((text, rest)) {
      var end := Close(s, 1).value.0;
      CloseExact(s, 1, end);
      UnescapeExact(s, 1, end, text);
      assert s == [QUOTE] + s[1..end] + [QUOTE] + s[end + 1..];
      assert IsString(s, s[1..end], text, rest);
    }
    forall body | IsString(s, body, text, rest) ensures Parse(s) == Some((text, rest)) {
      var end := 1 + |body|;
      assert s[1..end] == body && s[end] == QUOTE && s[end + 1..] == rest && s[0] == QUOTE;
      CloseExact(s, 1, end);
      UnescapeExact(s, 1, end, text);
    }
  }
}
