/** The strings of `src/runtime/cJSON.c`: escaping, and the in-place unescape with its estimate of the
    length of the result (section 7 of RFC 8259). */
module JsonString {
  import opened Wrappers

  const QUOTE: byte := 34
  const SLASH: byte := 47
  const BACKSLASH: byte := 92

  // ----- What an escape stands for -----

  function HexValue(b: byte): Option<nat> {
    if 48 <= b <= 57 then Some(b - 48)
    else if 65 <= b <= 70 then Some(b - 65 + 10)
    else if 97 <= b <= 102 then Some(b - 97 + 10)
    else None
  }

  /** `parse_hex4`: a digit that is none makes the whole number zero. */
  function Hex4(s: seq<byte>, i: nat): (h: nat)
    requires i + 4 <= |s|
    ensures h < 0x10000
  {
    match (HexValue(s[i]), HexValue(s[i + 1]), HexValue(s[i + 2]), HexValue(s[i + 3]))
    case (Some(a), Some(b), Some(c), Some(d)) => HexBounds(a, b, c, d); ((a * 16 + b) * 16 + c) * 16 + d
    case _ => 0
  }

  lemma HexBounds(a: nat, b: nat, c: nat, d: nat)
    ensures a < 16 && b < 16 && c < 16 && d < 16 ==> ((a * 16 + b) * 16 + c) * 16 + d < 0x10000
  {
  }

  /** The UTF-8 form of a code point. */
  function Utf8(point: nat): (bytes: seq<byte>)
    requires point < 0x110000
    ensures 1 <= |bytes| <= 4 && (point < 0x10000 ==> |bytes| <= 3)
  {
    if point < 0x80 then [point]
    else if point < 0x800 then [0xC0 + point / 64, 0x80 + point % 64]
    else if point < 0x10000 then [0xE0 + point / 4096, 0x80 + point / 64 % 64, 0x80 + point % 64]
    else [0xF0 + point / 262144, 0x80 + point / 4096 % 64, 0x80 + point / 64 % 64, 0x80 + point % 64]
  }

  /** The bytes of the escape at `i` and its length, which ends before `end`. */
  function Utf16(s: seq<byte>, i: nat, end: nat): (r: Option<(seq<byte>, nat)>)
    requires i <= end <= |s|
    ensures r.Some? ==> (r.value.1 == 6 && |r.value.0| <= 3) || (r.value.1 == 12 && |r.value.0| <= 4)
    ensures r.Some? ==> i + r.value.1 <= end
  {
    if end - i < 6 then None
    else
      var first := Hex4(s, i + 2);
      if 0xDC00 <= first <= 0xDFFF then None
      else if 0xD800 <= first <= 0xDBFF then
        if end - i < 12 || s[i + 6] != BACKSLASH || s[i + 7] != 117 then None
        else
          var second := Hex4(s, i + 8);
          if second < 0xDC00 || second > 0xDFFF then None
          else Some((Utf8(0x10000 + (first - 0xD800) * 1024 + (second - 0xDC00)), 12))
      else Some((Utf8(first), 6))
  }

  function Simple(c: byte): Option<byte> {
    match c
    case 98 => Some(8)
    case 102 => Some(12)
    case 110 => Some(10)
    case 114 => Some(13)
    case 116 => Some(9)
    case 34 => Some(34)
    case 92 => Some(92)
    case 47 => Some(47)
    case _ => None
  }

  /** One step of the second pass: the bytes written and the bytes read. */
  function Piece(s: seq<byte>, i: nat, end: nat): (r: Option<(seq<byte>, nat)>)
    requires i < end < |s|
    ensures r.Some? ==> r.value.1 > 0 && |r.value.0| > 0
  {
    if s[i] != BACKSLASH then Some(([s[i]], 1))
    else if s[i + 1] == 117 then Utf16(s, i, end)
    else
      match Simple(s[i + 1])
      case Some(b) => Some(([b], 2))
      case None => None
  }

  /** The second pass, from `i` to the closing quote at `end`. */
  function Unescape(s: seq<byte>, i: nat, end: nat): Option<seq<byte>>
    requires end < |s|
    decreases end - i
  {
    if i >= end then Some([])
    else
      match Piece(s, i, end)
      case None => None
      case Some((written, read)) =>
        match Unescape(s, i + read, end)
        case None => None
        case Some(rest) => Some(written + rest)
  }

  /** The first pass: the closing quote, and how many backslashes start an escape before it. */
  function Close(s: seq<byte>, i: nat): (r: Option<(nat, nat)>)
    requires i <= |s|
    ensures r.Some? ==> i <= r.value.0 < |s| && s[r.value.0] == QUOTE && r.value.1 <= r.value.0 - i
    decreases |s| - i
  {
    if i == |s| then None
    else if s[i] == QUOTE then Some((i, 0))
    else if s[i] == BACKSLASH then
      if i + 1 >= |s| then None
      else
        match Close(s, i + 2)
        case Some((end, skipped)) => Some((end, skipped + 1))
        case None => None
    else Close(s, i + 1)
  }

  /** `parse_string` at the opening quote `s[0]`: the string, and what follows its closing quote. */
  function Parse(s: seq<byte>): (r: Option<(seq<byte>, seq<byte>)>)
    ensures r.Some? ==> |r.value.1| < |s|
  {
    if s == [] || s[0] != QUOTE then None
    else
      match Close(s, 1)
      case None => None
      case Some((end, _)) =>
        match Unescape(s, 1, end)
        case None => None
        case Some(text) => Some((text, s[end + 1..]))
  }

  // ----- The estimate holds -----

  /** How many escapes the first pass starts at places before `i`, having come to `from`. */
  function Starts(s: seq<byte>, from: nat, i: nat): (n: nat)
    requires from <= |s|
    ensures n <= if i > from then (i - from + 1) / 2 else 0
    decreases |s| - from
  {
    if from >= i || from == |s| || s[from] == QUOTE then 0
    else if s[from] == BACKSLASH then if from + 1 >= |s| then 1 else 1 + Starts(s, from + 2, i)
    else Starts(s, from + 1, i)
  }

  /** Within a window of `n` places, no more than half of them, rounded up, start an escape. */
  lemma {:induction false} WindowStarts(s: seq<byte>, from: nat, i: nat, n: nat)
    requires from <= |s|
    ensures Starts(s, from, i) <= Starts(s, from, i + n) <= Starts(s, from, i) + (n + 1) / 2
    decreases |s| - from
  {
    if from < i && from < |s| && s[from] != QUOTE {
      if s[from] == BACKSLASH {
        if from + 1 < |s| { WindowStarts(s, from + 2, i, n); }
      } else {
        WindowStarts(s, from + 1, i, n);
      }
    }
  }

  /** A place that holds no backslash starts no escape. */
  lemma {:induction false} PlainStartsNone(s: seq<byte>, from: nat, i: nat)
    requires from <= |s| && i < |s| && s[i] != BACKSLASH
    ensures Starts(s, from, i + 1) == Starts(s, from, i)
    decreases |s| - from
  {
    if from < i && s[from] != QUOTE {
      if s[from] == BACKSLASH {
        if from + 1 < |s| { PlainStartsNone(s, from + 2, i); }
      } else {
        PlainStartsNone(s, from + 1, i);
      }
    }
  }

  lemma {:induction false} CloseCountsStarts(s: seq<byte>, i: nat, past: nat)
    requires i <= |s| && Close(s, i).Some? && past >= Close(s, i).value.0
    ensures Starts(s, i, past) == Close(s, i).value.1
    decreases |s| - i
  {
    if s[i] == BACKSLASH {
      CloseCountsStarts(s, i + 2, past);
    } else if s[i] != QUOTE {
      CloseCountsStarts(s, i + 1, past);
    }
  }

  /** What the second pass may have written when it has come to `i`. */
  predicate Fits(s: seq<byte>, i: nat, written: nat) {
    1 <= i && 1 <= |s| && written + Starts(s, 1, i) <= i - 1
  }

  lemma StepFits(s: seq<byte>, i: nat, end: nat, written: nat)
    requires i < end < |s| && Fits(s, i, written) && Piece(s, i, end).Some?
    ensures var (bytes, read) := Piece(s, i, end).value; Fits(s, i + read, written + |bytes|)
  {
    var (bytes, read) := Piece(s, i, end).value;
    if s[i] != BACKSLASH {
      PlainStartsNone(s, 1, i);
    } else {
      WindowStarts(s, 1, i, read);
    }
  }

  /** The first pass of `parse_string`. */
  method FindClose(s: seq<byte>) returns (r: Option<(nat, nat)>)
    requires s != []
    ensures r == Close(s, 1)
  {
    var inputEnd, skippedBytes := 1, 0;
    while inputEnd < |s| && s[inputEnd] != QUOTE
      invariant 1 <= inputEnd <= |s| && 0 <= skippedBytes
      invariant Close(s, 1) == match Close(s, inputEnd) case Some((e, k)) => Some((e, k + skippedBytes)) case None => None
      decreases |s| - inputEnd
    {
      if s[inputEnd] == BACKSLASH {
        if inputEnd + 1 >= |s| { return None; }
        skippedBytes := skippedBytes + 1;
        inputEnd := inputEnd + 1;
      }
      inputEnd := inputEnd + 1;
    }
    return if inputEnd >= |s| then None else Some((inputEnd, skippedBytes));
  }

  method Write(output: array<byte>, out: nat, bytes: seq<byte>)
    requires out + |bytes| <= output.Length
    modifies output
    ensures output[..out + |bytes|] == old(output[..out]) + bytes
  {
    var k := 0;
    while k < |bytes|
      invariant k <= |bytes| && output[..out + k] == old(output[..out]) + bytes[..k]
    {
      output[out + k] := bytes[k];
      k := k + 1;
    }
    assert bytes[..k] == bytes;
  }

  function Prepend(head: seq<byte>, tail: Option<seq<byte>>): Option<seq<byte>> {
    match tail
    case Some(bytes) => Some(head + bytes)
    case None => None
  }

  lemma UnescapeStep(s: seq<byte>, i: nat, end: nat, head: seq<byte>)
    requires i < end < |s| && Piece(s, i, end).Some?
    ensures var (bytes, read) := Piece(s, i, end).value;
      Prepend(head, Unescape(s, i, end)) == Prepend(head + bytes, Unescape(s, i + read, end))
  {
    var (bytes, read) := Piece(s, i, end).value;
    var tail := Unescape(s, i + read, end);
    assert tail.Some? ==> head + (bytes + tail.value) == head + bytes + tail.value;
  }

  /** `parse_string`, with its two passes over the input and an output buffer of the estimated length.
      Every write, that of the terminator included, is inside the buffer, and no read is behind the
      closing quote, for every input. */
  method ParseString(s: seq<byte>) returns (r: Option<(seq<byte>, seq<byte>)>)
    requires s != []
    ensures r == Parse(s)
  {
    hide Piece, Starts, Close;
    if s[0] != QUOTE { return None; }
    var close := FindClose(s);
    if close.None? { return None; }
    var (inputEnd, skippedBytes) := close.value;
    var allocationLength := inputEnd - skippedBytes;
    var output := new byte[allocationLength + 1];
    var i: nat, out: nat := 1, 0;
    StartsPast(s, i, inputEnd);
    assert output[..0] == [];
    FirstFits(s);
    ghost var whole := Unescape(s, 1, inputEnd);
    PrependNothing(whole);
    while i < inputEnd
      invariant 1 <= i && Fits(s, i, out) && out < output.Length
      invariant whole == Prepend(output[..out], Unescape(s, i, inputEnd))
      decreases inputEnd - i
    {
      var piece := Piece(s, i, inputEnd);
      if piece.None? { return None; }
      var (bytes, read) := piece.value;
      StepFits(s, i, inputEnd, out);
      StepInside(s, i, inputEnd);
      StartsPast(s, i + read, inputEnd);
      UnescapeStep(s, i, inputEnd, output[..out]);
      Write(output, out, bytes);
      out, i := out + |bytes|, i + read;
    }
    output[out] := 0;
    assert output[..out] + [] == output[..out];
    return Some((output[..out], s[inputEnd + 1..]));
  }

  lemma FirstFits(s: seq<byte>)
    requires s != []
    ensures Fits(s, 1, 0)
  {
  }

  lemma PrependNothing(r: Option<seq<byte>>)
    ensures Prepend([], r) == r
  {
    if r.Some? { assert [] + r.value == r.value; }
  }

  /** An escape ends no later than one place behind the closing quote. */
  lemma StepInside(s: seq<byte>, i: nat, end: nat)
    requires i < end < |s| && Piece(s, i, end).Some?
    ensures Piece(s, i, end).value.1 > 0 && i + Piece(s, i, end).value.1 <= end + 1
  {
  }

  lemma StartsPast(s: seq<byte>, i: nat, end: nat)
    requires 1 <= |s| && Close(s, 1).Some? && end == Close(s, 1).value.0 && i >= 1
    ensures i >= end ==> Starts(s, 1, i) == Close(s, 1).value.1
    ensures i <= end ==> Starts(s, 1, i) <= Close(s, 1).value.1
    ensures i <= end + 1 ==> i - Starts(s, 1, i) <= end - Close(s, 1).value.1 + 1
  {
    if i >= end {
      CloseCountsStarts(s, 1, i);
    } else {
      CloseCountsStarts(s, 1, end);
      WindowStarts(s, 1, i, end - i);
    }
  }

  /** The result and its terminator fit into the memory that the first pass asks for. */
  lemma {:induction false} EstimateSuffices(s: seq<byte>, i: nat, written: nat)
    requires s != [] && Close(s, 1).Some? && Unescape(s, i, Close(s, 1).value.0).Some?
    requires i <= Close(s, 1).value.0 + 1 && Fits(s, i, written)
    ensures var (end, skipped) := Close(s, 1).value; written + |Unescape(s, i, end).value| <= end - skipped
    decreases Close(s, 1).value.0 + 1 - i
  {
    hide Piece, Starts, Close;
    var (end, skipped) := Close(s, 1).value;
    StartsPast(s, i, end);
    if i < end {
      var (bytes, read) := Piece(s, i, end).value;
      StepFits(s, i, end, written);
      StepInside(s, i, end);
      EstimateSuffices(s, i + read, written + |bytes|);
    }
  }

  // ----- Printing -----

  function Digit(n: nat): byte
    requires n < 16
  {
    if n < 10 then 48 + n else 97 + n - 10
  }

  function EscapeByte(b: byte): (e: seq<byte>)
    ensures |e| == 1 || |e| == 2 || |e| == 6
  {
    match b
    case 92 => [BACKSLASH, 92]
    case 34 => [BACKSLASH, 34]
    case 8 => [BACKSLASH, 98]
    case 12 => [BACKSLASH, 102]
    case 10 => [BACKSLASH, 110]
    case 13 => [BACKSLASH, 114]
    case 9 => [BACKSLASH, 116]
    case _ => if b < 32 then [BACKSLASH, 117, 48, 48, Digit(b / 16), Digit(b % 16)] else [b]
  }

  function Escape(s: seq<byte>): seq<byte> {
    if s == [] then [] else EscapeByte(s[0]) + Escape(s[1..])
  }

  /** `print_string_ptr` */
  function Print(s: seq<byte>): seq<byte> {
    [QUOTE] + Escape(s) + [QUOTE]
  }

  predicate Holds(t: seq<byte>, i: nat, part: seq<byte>) {
    i + |part| <= |t| && t[i..i + |part|] == part
  }

  lemma HoldsAt(t: seq<byte>, i: nat, part: seq<byte>, k: nat)
    requires Holds(t, i, part) && k < |part|
    ensures t[i + k] == part[k]
  {
    assert t[i + k] == t[i..i + |part|][k];
  }

  lemma DigitHex(n: nat)
    requires n < 16
    ensures HexValue(Digit(n)) == Some(n) && Digit(n) != QUOTE && Digit(n) != BACKSLASH
  {
  }

  /** An escaped byte is read back as the byte. */
  lemma PieceEscaped(t: seq<byte>, i: nat, b: byte, end: nat)
    requires Holds(t, i, EscapeByte(b)) && i + |EscapeByte(b)| <= end < |t|
    ensures Piece(t, i, end) == Some(([b], |EscapeByte(b)|))
  {
    var e := EscapeByte(b);
    forall k | 0 <= k < |e| ensures t[i + k] == e[k] { HoldsAt(t, i, e, k); }
    assert t[i] == e[0];
    if |e| == 6 {
      DigitHex(b / 16);
      DigitHex(b % 16);
      DigitHex(0);
      assert t[i + 1] == e[1] && t[i + 2] == e[2] && t[i + 3] == e[3] && t[i + 4] == e[4] && t[i + 5] == e[5];
      assert Hex4(t, i + 2) == b;
    } else if |e| == 2 {
      assert t[i + 1] == e[1];
    }
  }

  /** The first pass goes over an escaped byte. */
  lemma CloseEscaped(t: seq<byte>, i: nat, b: byte)
    requires Holds(t, i, EscapeByte(b)) && Close(t, i + |EscapeByte(b)|).Some?
    ensures Close(t, i).Some? && Close(t, i).value.0 == Close(t, i + |EscapeByte(b)|).value.0
  {
    var e := EscapeByte(b);
    forall k | 0 <= k < |e| ensures t[i + k] == e[k] { HoldsAt(t, i, e, k); }
    assert t[i] == e[0];
    if |e| == 6 {
      DigitHex(b / 16);
      DigitHex(b % 16);
      assert t[i + 2] == e[2] && t[i + 3] == e[3] && t[i + 4] == e[4] && t[i + 5] == e[5];
      assert Close(t, i + 5).Some? && Close(t, i + 5).value.0 == Close(t, i + 6).value.0;
      assert Close(t, i + 4).Some? && Close(t, i + 4).value.0 == Close(t, i + 6).value.0;
      assert Close(t, i + 3).Some? && Close(t, i + 3).value.0 == Close(t, i + 6).value.0;
      assert Close(t, i + 2).Some? && Close(t, i + 2).value.0 == Close(t, i + 6).value.0;
    }
  }

  lemma HoldsSplit(t: seq<byte>, i: nat, a: seq<byte>, b: seq<byte>)
    requires Holds(t, i, a + b)
    ensures Holds(t, i, a) && Holds(t, i + |a|, b)
  {
    assert t[i..i + |a|] == t[i..i + |a + b|][..|a|];
    assert t[i + |a|..i + |a| + |b|] == t[i..i + |a + b|][|a|..];
  }

  lemma {:induction false} EscapedReads(t: seq<byte>, i: nat, s: seq<byte>)
    requires Holds(t, i, Escape(s)) && i + |Escape(s)| < |t| && t[i + |Escape(s)|] == QUOTE
    ensures Close(t, i).Some? && Close(t, i).value.0 == i + |Escape(s)|
    ensures Unescape(t, i, i + |Escape(s)|) == Some(s)
    decreases |s|
  {
    hide Piece, EscapeByte, Hex4;
    if s != [] {
      var e, rest := EscapeByte(s[0]), Escape(s[1..]);
      var end := i + |Escape(s)|;
      HoldsSplit(t, i, e, rest);
      EscapedReads(t, i + |e|, s[1..]);
      PieceEscaped(t, i, s[0], end);
      CloseEscaped(t, i, s[0]);
      assert s == [s[0]] + s[1..];
    }
  }

  /** Parsing undoes printing, whatever follows. */
  lemma ParsePrint(s: seq<byte>, rest: seq<byte>)
    ensures Parse(Print(s) + rest) == Some((s, rest))
  {
    var t := Print(s) + rest;
    var end := 1 + |Escape(s)|;
    assert t[1..end] == Escape(s);
    assert t[end] == QUOTE;
    EscapedReads(t, 1, s);
    assert t[end + 1..] == rest;
  }

  /** How many bytes escaping adds. */
  function Added(s: seq<byte>): nat {
    if s == [] then 0 else |EscapeByte(s[0])| - 1 + Added(s[1..])
  }

  lemma {:induction false} AddedLength(s: seq<byte>)
    ensures |Escape(s)| == |s| + Added(s)
    decreases |s|
  {
    if s != [] {
      AddedLength(s[1..]);
    }
  }

  lemma {:induction false} EscapeSplit(s: seq<byte>, i: nat)
    requires i < |s|
    ensures Escape(s[..i + 1]) == Escape(s[..i]) + EscapeByte(s[i]) && Added(s[..i + 1]) == Added(s[..i]) + |EscapeByte(s[i])| - 1
    decreases i
  {
    assert s[..i + 1][0] == s[0];
    if i == 0 {
      assert s[..1][1..] == [] && s[..0] == [];
      assert Escape([]) == [] && EscapeByte(s[0]) + [] == EscapeByte(s[0]) && [] + EscapeByte(s[0]) == EscapeByte(s[0]);
    } else {
      assert s[..i + 1][1..] == s[1..][..i] && s[..i][1..] == s[1..][..i - 1] && s[..i][0] == s[0];
      EscapeSplit(s[1..], i - 1);
      assert EscapeByte(s[0]) + (Escape(s[1..][..i - 1]) + EscapeByte(s[i])) == EscapeByte(s[0]) + Escape(s[1..][..i - 1]) + EscapeByte(s[i]);
    }
  }

  lemma {:induction false} NoneAdded(s: seq<byte>)
    ensures Added(s) == 0 ==> Escape(s) == s
    decreases |s|
  {
    if s != [] {
      NoneAdded(s[1..]);
      assert s == [s[0]] + s[1..];
    }
  }

  /** `print_string_ptr`: a pass that counts, then a copy, or an escaping copy, into memory of exactly
      the size that was counted. */
  method PrintString(input: seq<byte>) returns (output: array<byte>)
    requires 0 !in input
    ensures fresh(output) && output.Length == |Print(input)| + 1
    ensures output[..|Print(input)|] == Print(input) && output[|Print(input)|] == 0
  {
    var escapeCharacters := 0;
    for i := 0 to |input|
      invariant escapeCharacters == Added(input[..i])
    {
      EscapeSplit(input, i);
      if input[i] in {34, 92, 8, 12, 10, 13, 9} {
        escapeCharacters := escapeCharacters + 1;
      } else if input[i] < 32 {
        escapeCharacters := escapeCharacters + 5;
      }
    }
    assert input[..|input|] == input;
    AddedLength(input);
    NoneAdded(input);
    var outputLength := |input| + escapeCharacters;
    output := new byte[outputLength + 3];
    output[0] := QUOTE;
    assert output[..1] == [QUOTE];
    if escapeCharacters == 0 {
      Write(output, 1, input);
    } else {
      EscapeInto(output, input);
    }
    output[outputLength + 1] := QUOTE;
    output[outputLength + 2] := 0;
    assert output[..outputLength + 2] == output[..outputLength + 1] + [QUOTE];
  }

  method EscapeInto(output: array<byte>, input: seq<byte>)
    requires output.Length == |Escape(input)| + 3 && output[0] == QUOTE
    modifies output
    ensures output[..1 + |Escape(input)|] == [QUOTE] + Escape(input)
  {
    hide EscapeByte;
    var out := 1;
    for i := 0 to |input|
      invariant out == 1 + |Escape(input[..i])| && out <= output.Length && output[..out] == [QUOTE] + Escape(input[..i])
    {
      EscapeSplit(input, i);
      EscapePrefix(input, i + 1);
      Write(output, out, EscapeByte(input[i]));
      out := out + |EscapeByte(input[i])|;
    }
    assert input[..|input|] == input;
  }

  lemma {:induction false} EscapePrefix(s: seq<byte>, i: nat)
    requires i <= |s|
    ensures |Escape(s[..i])| <= |Escape(s)|
    decreases |s| - i
  {
    if i < |s| {
      EscapeSplit(s, i);
      EscapePrefix(s, i + 1);
    } else {
      assert s[..i] == s;
    }
  }
}
