/** The base64url encoder of `lib/jwt.llm` by the bits of its input: section 5 of RFC 4648. */
module Base64Bits {
  import opened Codec

  /** The value of a digit: letters, small letters, numerals, and the two signs of the URL alphabet. */
  function Place(c: char): nat {
    if 'A' <= c <= 'Z' then c as int - 'A' as int
    else if 'a' <= c <= 'z' then 26 + (c as int - 'a' as int)
    else if '0' <= c <= '9' then 52 + (c as int - '0' as int)
    else if c == '-' then 62
    else 63
  }

  predicate InAlphabet(c: char) {
    'A' <= c <= 'Z' || 'a' <= c <= 'z' || '0' <= c <= '9' || c == '-' || c == '_'
  }

  /** The code of a character, which is zero beyond the printing characters, newline, carriage return and tab. */
  function Code(c: char): nat {
    if ' ' <= c <= '~' || c == '\n' || c == '\r' || c == '\t' then c as int else 0
  }

  lemma TableIs(v: nat)
    requires v < 64
    ensures |BASE64| == 64 && InAlphabet(BASE64[v]) && Place(BASE64[v]) == v
  {
  }

  lemma CodeIs(c: char)
    ensures CharToAscii(c) == Code(c) < 128
  {
    hide Find;
    TablesDistinct();
    FindBounds(ASCII, c);
    if ' ' <= c <= '~' {
      FindAt(ASCII, c as int - 32);
    } else if c == '\n' {
      FindAt(ASCII, 95);
    } else if c == '\r' {
      FindAt(ASCII, 96);
    } else if c == '\t' {
      FindAt(ASCII, 97);
    }
  }

  // ----- Bits -----

  /** The last `w` bits of a number, the highest first. */
  function Bits(n: nat, w: nat): (bits: seq<bool>)
    ensures |bits| == w
  {
    if w == 0 then [] else Bits(n / 2, w - 1) + [n % 2 == 1]
  }

  function Zeros(n: nat): seq<bool> {
    seq(n, _ => false)
  }

  /** Eight bits for each character. */
  function EightBits(s: string): (bits: seq<bool>)
    ensures |bits| == 8 * |s|
  {
    if s == "" then [] else Bits(Code(s[0]), 8) + EightBits(s[1..])
  }

  /** Six bits for each digit. */
  function SixBits(s: string): (bits: seq<bool>)
    ensures |bits| == 6 * |s|
  {
    if s == "" then [] else Bits(Place(s[0]), 6) + SixBits(s[1..])
  }

  lemma {:induction false} BitsSplit(x: nat, j: nat, y: nat, k: nat)
    requires y < Pow2(k)
    ensures Bits(x * Pow2(k) + y, j + k) == Bits(x, j) + Bits(y, k)
    decreases k
  {
    if k == 0 {
      assert Bits(x, j) + Bits(y, 0) == Bits(x, j);
    } else {
      var p := Pow2(k - 1);
      assert Pow2(k) == 2 * p;
      HalfOf(x, y, p);
      BitsSplit(x, j, y / 2, k - 1);
      assert Bits(x, j) + (Bits(y / 2, k - 1) + [y % 2 == 1]) == Bits(x, j) + Bits(y / 2, k - 1) + [y % 2 == 1];
    }
  }

  lemma HalfOf(x: nat, y: nat, p: nat)
    requires y < 2 * p
    ensures (x * (2 * p) + y) / 2 == x * p + y / 2 && (x * (2 * p) + y) % 2 == y % 2 && y / 2 < p
  {
    assert x * (2 * p) == 2 * (x * p);
  }

  lemma {:induction false} NoBits(w: nat)
    ensures Bits(0, w) == Zeros(w)
    decreases w
  {
    if w > 0 {
      NoBits(w - 1);
      assert Zeros(w) == Zeros(w - 1) + [false];
    }
  }

  /** Three bytes and four digits of one number have the same bits. */
  lemma GroupBits(a: nat, b: nat, c: nat)
    requires a < 256 && b < 256 && c < 256
    ensures var v := a * 65536 + b * 256 + c;
      && v < 16777216
      && Bits(a, 8) + Bits(b, 8) + Bits(c, 8)
         == Bits(v / 262144, 6) + Bits(v / 4096 % 64, 6) + Bits(v / 64 % 64, 6) + Bits(v % 64, 6)
  {
    hide Bits;
    var v := a * 65536 + b * 256 + c;
    Bytes(a, b, c);
    ByteBits(a, b, c);
    Cut(v);
    DigitBits(v / 262144, v / 4096 % 64, v / 64 % 64, v % 64);
  }

  lemma ByteBits(a: nat, b: nat, c: nat)
    requires a < 256 && b < 256 && c < 256
    ensures Bits(a * 65536 + b * 256 + c, 24) == Bits(a, 8) + Bits(b, 8) + Bits(c, 8)
  {
    hide Bits;
    Powers();
    BitsSplit(a * 256 + b, 16, c, 8);
    BitsSplit(a, 8, b, 8);
  }

  lemma DigitBits(a: nat, b: nat, c: nat, d: nat)
    requires a < 64 && b < 64 && c < 64 && d < 64
    ensures Bits(a * 262144 + b * 4096 + c * 64 + d, 24) == Bits(a, 6) + Bits(b, 6) + Bits(c, 6) + Bits(d, 6)
  {
    hide Bits;
    Powers();
    BitsSplit((a * 64 + b) * 64 + c, 18, d, 6);
    BitsSplit(a * 64 + b, 12, c, 6);
    BitsSplit(a, 6, b, 6);
  }

  // ----- The encoder -----

  lemma {:induction false} SixJoin(a: string, b: string)
    ensures SixBits(a + b) == SixBits(a) + SixBits(b)
    decreases |a|
  {
    if a == "" {
      assert a + b == b;
    } else {
      assert (a + b)[1..] == a[1..] + b;
      SixJoin(a[1..], b);
    }
  }

  /** A digit and its six bits. */
  lemma DigitSix(v: nat)
    requires v < 64
    ensures |BASE64| == 64 && SixBits([Digit64(v)]) == Bits(v, 6) && InAlphabet(Digit64(v))
  {
    TableIs(v);
    var s := [Digit64(v)];
    assert s[1..] == "";
    assert SixBits(s) == Bits(Place(s[0]), 6) + SixBits("");
  }

  /** The four digits of a group have the bits of its three bytes. */
  lemma GroupSix(a: nat, b: nat, c: nat)
    requires a < 256 && b < 256 && c < 256
    ensures var v := a * 65536 + b * 256 + c;
      && v < 16777216 && |BASE64| == 64
      && SixBits([Digit64(v / 262144)]) + SixBits([Digit64(v / 4096 % 64)]) + SixBits([Digit64(v / 64 % 64)]) + SixBits([Digit64(v % 64)])
         == Bits(a, 8) + Bits(b, 8) + Bits(c, 8)
  {
    hide Bits, SixBits, BASE64;
    GroupBits(a, b, c);
    var v := a * 65536 + b * 256 + c;
    Cut(v);
    DigitSix(v / 262144);
    DigitSix(v / 4096 % 64);
    DigitSix(v / 64 % 64);
    DigitSix(v % 64);
  }

  /** How many bits are filled up with zeros behind `n` bytes. */
  function Padding(n: nat): nat {
    if n % 3 == 1 then 4 else if n % 3 == 2 then 2 else 0
  }

  lemma EightOne(c: char)
    ensures EightBits([c]) == Bits(Code(c), 8)
  {
    assert [c][1..] == "";
    assert EightBits([c]) == Bits(Code(c), 8) + EightBits("");
  }

  lemma {:induction false} EightJoin(a: string, b: string)
    ensures EightBits(a + b) == EightBits(a) + EightBits(b)
    decreases |a|
  {
    if a == "" {
      assert a + b == b;
    } else {
      assert (a + b)[1..] == a[1..] + b;
      EightJoin(a[1..], b);
    }
  }

  /** A whole group. */
  lemma GroupOfThree(a: char, b: char, c: char)
    ensures var v := Or(Or(CharToAscii(a) * 65536, CharToAscii(b) * 256), CharToAscii(c));
      var (c1, c2, c3, c4) := Digits64(v);
      SixBits(c1 + (c2 + (c3 + c4))) == Bits(Code(a), 8) + Bits(Code(b), 8) + Bits(Code(c), 8)
  {
    hide Bits, SixBits, CharToAscii, Or, Digits64, Digit64, Code, BASE64;
    CodeIs(a);
    CodeIs(b);
    CodeIs(c);
    PackBytes(CharToAscii(a), CharToAscii(b), CharToAscii(c));
    GroupSix(CharToAscii(a), CharToAscii(b), CharToAscii(c));
    var v := Or(Or(CharToAscii(a) * 65536, CharToAscii(b) * 256), CharToAscii(c));
    DigitsOf(v);
    var (c1, c2, c3, c4) := Digits64(v);
    SixJoin(c1, c2 + (c3 + c4));
    SixJoin(c2, c3 + c4);
    SixJoin(c3, c4);
  }

  lemma GroupOfTwo(a: char, b: char)
    ensures var (c1, c2, c3, _) := Digits64(Or(CharToAscii(a) * 65536, CharToAscii(b) * 256));
      SixBits(c1 + (c2 + c3)) == Bits(Code(a), 8) + Bits(Code(b), 8) + Zeros(2)
  {
    hide Bits, SixBits, CharToAscii, Or, Digits64, BASE64;
    CodeIs(a);
    CodeIs(b);
    var x, y := CharToAscii(a), CharToAscii(b);
    PackBytes(x, y, 0);
    QuadShort(x, y);
    var v := x * 65536 + y * 256;
    DigitsOf(v);
    var (c1, c2, c3, _) := Digits64(v);
    SixJoin(c1, c2 + c3);
    SixJoin(c2, c3);
  }

  /** What stays in front when the same zeros are taken off. */
  lemma Shortened(left: seq<bool>, right: seq<bool>, j: nat, k: nat)
    requires left + Zeros(k) == right + Zeros(j + k)
    ensures left == right + Zeros(j)
  {
    assert Zeros(j + k) == Zeros(j) + Zeros(k);
    assert left + Zeros(k) == right + Zeros(j) + Zeros(k);
    assert left == (left + Zeros(k))[..|left|];
    assert right + Zeros(j) == (right + Zeros(j) + Zeros(k))[..|left|];
  }

  lemma GroupOfOne(a: char)
    ensures var (c1, c2, _, _) := Digits64(CharToAscii(a) * 65536);
      SixBits(c1 + c2) == Bits(Code(a), 8) + Zeros(4)
  {
    hide Bits, SixBits, CharToAscii, Or, Digits64, BASE64;
    CodeIs(a);
    var x := CharToAscii(a);
    QuadShorter(x);
    DigitsOf(x * 65536);
    var (c1, c2, _, _) := Digits64(x * 65536);
    SixJoin(c1, c2);
  }

  lemma {:induction false} EncodeRecBits(s: string, i: nat, acc: string)
    requires i <= |s|
    ensures SixBits(EncodeRec(s, i, acc)) == SixBits(acc) + EightBits(s[i..]) + Zeros(Padding(|s| - i))
    decreases |s| - i
  {
    hide Bits, SixBits, EightBits, Digits64, CharToAscii, Or, BASE64;
    var n := |s| - i;
    if n > 2 {
      var (c1, c2, c3, c4) := Digits64(Or(Or(CharToAscii(s[i]) * 65536, CharToAscii(s[i + 1]) * 256), CharToAscii(s[i + 2])));
      var group := c1 + (c2 + (c3 + c4));
      GroupOfThree(s[i], s[i + 1], s[i + 2]);
      EncodeRecBits(s, i + 3, acc + group);
      SixJoin(acc, group);
      EightThree(s, i);
    } else if n == 2 {
      var (c1, c2, c3, _) := Digits64(Or(CharToAscii(s[i]) * 65536, CharToAscii(s[i + 1]) * 256));
      GroupOfTwo(s[i], s[i + 1]);
      SixJoin(acc, c1 + (c2 + c3));
      assert s[i..] == [s[i]] + [s[i + 1]];
      EightJoin([s[i]], [s[i + 1]]);
      EightOne(s[i]);
      EightOne(s[i + 1]);
    } else if n == 1 {
      var (c1, c2, _, _) := Digits64(CharToAscii(s[i]) * 65536);
      GroupOfOne(s[i]);
      SixJoin(acc, c1 + c2);
      assert s[i..] == [s[i]];
      EightOne(s[i]);
    } else {
      assert s[i..] == "";
      NoEight(s[i..]);
    }
  }

  lemma NoEight(s: string)
    requires s == ""
    ensures EightBits(s) == []
  {
  }

  lemma EightThree(s: string, i: nat)
    requires i + 3 <= |s|
    ensures EightBits(s[i..]) == Bits(Code(s[i]), 8) + Bits(Code(s[i + 1]), 8) + Bits(Code(s[i + 2]), 8) + EightBits(s[i + 3..])
  {
    hide Bits;
    assert s[i..] == [s[i]] + ([s[i + 1]] + ([s[i + 2]] + s[i + 3..]));
    EightJoin([s[i]], [s[i + 1]] + ([s[i + 2]] + s[i + 3..]));
    EightJoin([s[i + 1]], [s[i + 2]] + s[i + 3..]);
    EightJoin([s[i + 2]], s[i + 3..]);
    EightOne(s[i]);
    EightOne(s[i + 1]);
    EightOne(s[i + 2]);
  }

  /** An encoded text holds the bits of the text, six to a digit by the table of section 5 of RFC 4648,
      filled up with zeros. */
  lemma EncodeBits(s: string)
    ensures SixBits(Encode(s)) == EightBits(s) + Zeros(Padding(|s|))
  {
    hide SixBits, EightBits, EncodeRec, Zeros, Padding;
    EncodeRecBits(s, 0, "");
    assert s[0..] == s && SixBits("") == [];
    assert [] + EightBits(s) == EightBits(s);
  }

  // ----- Hexadecimal digits -----

  /** The value of a hexadecimal digit. */
  function Nibble(c: char): nat {
    if '0' <= c <= '9' then c as int - '0' as int
    else if 'a' <= c <= 'f' then 10 + (c as int - 'a' as int)
    else 0
  }

  /** Four bits for each digit. */
  function FourBits(s: string): (bits: seq<bool>)
    ensures |bits| == 4 * |s|
  {
    if s == "" then [] else Bits(Nibble(s[0]), 4) + FourBits(s[1..])
  }

  lemma NibbleIs(c: char)
    ensures Find(HEX, c) >= 0 <==> '0' <= c <= '9' || 'a' <= c <= 'f'
    ensures Find(HEX, c) >= 0 ==> Find(HEX, c) == Nibble(c) < 16
  {
    hide Find;
    TablesDistinct();
    FindBounds(HEX, c);
    if '0' <= c <= '9' {
      FindAt(HEX, c as int - '0' as int);
    } else if 'a' <= c <= 'f' {
      FindAt(HEX, 10 + (c as int - 'a' as int));
    }
  }

  lemma ByteFour(hex: string, i: nat)
    requires Over(hex, HEX) && i + 1 < |hex|
    ensures Bits(Byte(hex, i), 8) == Bits(Nibble(hex[i]), 4) + Bits(Nibble(hex[i + 1]), 4)
  {
    hide Bits, Find, HEX;
    Powers();
    NibbleIs(hex[i]);
    NibbleIs(hex[i + 1]);
    ByteIs(hex, i);
    BitsSplit(Nibble(hex[i]), 4, Nibble(hex[i + 1]), 4);
  }

  lemma {:induction false} FourJoin(a: string, b: string)
    ensures FourBits(a + b) == FourBits(a) + FourBits(b)
    decreases |a|
  {
    if a == "" {
      assert a + b == b;
    } else {
      assert (a + b)[1..] == a[1..] + b;
      FourJoin(a[1..], b);
    }
  }

  lemma FourPair(hex: string, i: nat)
    requires Over(hex, HEX) && i + 1 < |hex|
    ensures FourBits(hex[i..]) == Bits(Byte(hex, i), 8) + FourBits(hex[i + 2..])
  {
    hide Bits, Byte;
    ByteFour(hex, i);
    var a, b := [hex[i]], [hex[i + 1]];
    assert hex[i..] == a + b + hex[i + 2..];
    FourJoin(a + b, hex[i + 2..]);
    FourJoin(a, b);
    assert a[1..] == "" && b[1..] == "";
    assert FourBits(a) == Bits(Nibble(hex[i]), 4) + FourBits("") && FourBits(b) == Bits(Nibble(hex[i + 1]), 4) + FourBits("");
  }

  /** The digits of a group, all of them or the first. */
  lemma QuadSix(a: nat, b: nat, c: nat)
    requires a < 256 && b < 256 && c < 256
    ensures var v := a * 65536 + b * 256 + c;
      && v < 16777216
      && SixBits(Quad(v)) == Bits(a, 8) + Bits(b, 8) + Bits(c, 8)
      && (c == 0 ==> SixBits(Quad(v)[..3]) == Bits(a, 8) + Bits(b, 8) + Zeros(2))
      && (b == 0 && c == 0 ==> SixBits(Quad(v)[..2]) == Bits(a, 8) + Zeros(4))
  {
    hide Bits, SixBits, BASE64, Quad;
    GroupSix(a, b, c);
    QuadParts(a * 65536 + b * 256 + c);
    if c == 0 { QuadShort(a, b); }
    if b == 0 && c == 0 { QuadShorter(a); }
  }

  lemma QuadParts(v: nat)
    requires v < 16777216
    ensures |BASE64| == 64 && v / 262144 < 64
    ensures var d0, d1, d2, d3 := SixBits([Digit64(v / 262144)]), SixBits([Digit64(v / 4096 % 64)]), SixBits([Digit64(v / 64 % 64)]), SixBits([Digit64(v % 64)]);
      SixBits(Quad(v)) == d0 + d1 + d2 + d3 && SixBits(Quad(v)[..3]) == d0 + d1 + d2 && SixBits(Quad(v)[..2]) == d0 + d1
  {
    hide SixBits, BASE64, Digit64;
    TablesDistinct();
    Cut(v);
    var d0, d1, d2, d3 := [Digit64(v / 262144)], [Digit64(v / 4096 % 64)], [Digit64(v / 64 % 64)], [Digit64(v % 64)];
    assert Quad(v) == d0 + d1 + d2 + d3 && Quad(v)[..3] == d0 + d1 + d2 && Quad(v)[..2] == d0 + d1;
    SixJoin(d0 + d1 + d2, d3);
    SixJoin(d0 + d1, d2);
    SixJoin(d0, d1);
  }

  lemma QuadShort(a: nat, b: nat)
    requires a < 256 && b < 256
    ensures var v := a * 65536 + b * 256;
      && v < 16777216 && |BASE64| == 64
      && SixBits([Digit64(v / 262144)]) + SixBits([Digit64(v / 4096 % 64)]) + SixBits([Digit64(v / 64 % 64)])
         == Bits(a, 8) + Bits(b, 8) + Zeros(2)
  {
    hide Bits, SixBits, BASE64;
    GroupSix(a, b, 0);
    var v := a * 65536 + b * 256;
    ModUnique(v, 256, a * 256 + b, 0);
    Cut(v);
    DigitSix(0);
    NoBits(6);
    NoBits(8);
    assert Zeros(8) == Zeros(2 + 6);
    Shortened(SixBits([Digit64(v / 262144)]) + SixBits([Digit64(v / 4096 % 64)]) + SixBits([Digit64(v / 64 % 64)]),
              Bits(a, 8) + Bits(b, 8), 2, 6);
  }

  lemma QuadShorter(a: nat)
    requires a < 256
    ensures var v := a * 65536;
      v < 16777216 && |BASE64| == 64 && SixBits([Digit64(v / 262144)]) + SixBits([Digit64(v / 4096 % 64)]) == Bits(a, 8) + Zeros(4)
  {
    hide Bits, SixBits, BASE64;
    QuadShort(a, 0);
    var v := a * 65536;
    ModUnique(v, 65536, a, 0);
    ModUnique(v, 256, a * 256, 0);
    Cut(v);
    DigitSix(0);
    NoBits(6);
    NoBits(8);
    var left := SixBits([Digit64(v / 262144)]) + SixBits([Digit64(v / 4096 % 64)]);
    assert Bits(a, 8) + Zeros(8) + Zeros(2) == Bits(a, 8) + Zeros(4 + 6);
    Shortened(left, Bits(a, 8), 4, 6);
  }

  lemma {:induction false} HexRecBits(hex: string, i: nat, acc: string)
    requires Over(hex, HEX) && i <= |hex| && (|hex| - i) % 2 == 0
    ensures SixBits(HexToBase64Rec(hex, i, acc)) == SixBits(acc) + FourBits(hex[i..]) + Zeros(Padding((|hex| - i) / 2))
    decreases |hex| - i
  {
    hide Bits, SixBits, FourBits, HexToBase64Rec, Byte, Quad, BASE64, HEX;
    var n := |hex| - i;
    if n == 0 {
      NoneLeft(hex, acc);
      assert hex[i..] == "";
      assert SixBits(acc) + [] + Zeros(0) == SixBits(acc);
    } else {
      HexGroup(hex, i, acc);
      FourPair(hex, i);
      if n > 5 {
        FourPair(hex, i + 2);
        FourPair(hex, i + 4);
        QuadSix(Byte(hex, i), Byte(hex, i + 2), Byte(hex, i + 4));
        var quad := Quad(Codec.Bits(Byte(hex, i), Byte(hex, i + 2), Byte(hex, i + 4)));
        HexRecBits(hex, i + 6, acc + quad);
        SixJoin(acc, quad);
        SameOrder(SixBits(acc), Bits(Byte(hex, i), 8), Bits(Byte(hex, i + 2), 8), Bits(Byte(hex, i + 4), 8), FourBits(hex[i + 6..]));
      } else if n == 4 {
        FourPair(hex, i + 2);
        NoFour(hex[i + 4..]);
        QuadSix(Byte(hex, i), Byte(hex, i + 2), 0);
        SixJoin(acc, Quad(Codec.Bits(Byte(hex, i), Byte(hex, i + 2), 0))[..3]);
      } else {
        NoFour(hex[i + 2..]);
        QuadSix(Byte(hex, i), 0, 0);
        SixJoin(acc, Quad(Codec.Bits(Byte(hex, i), 0, 0))[..2]);
      }
    }
  }

  lemma NoneLeft(hex: string, acc: string)
    requires Over(hex, HEX)
    ensures HexToBase64Rec(hex, |hex|, acc) == acc && FourBits("") == []
  {
  }

  lemma NoFour(s: string)
    requires s == ""
    ensures FourBits(s) == []
  {
  }

  lemma SameOrder(acc: seq<bool>, a: seq<bool>, b: seq<bool>, c: seq<bool>, rest: seq<bool>)
    ensures acc + (a + (b + (c + rest))) == acc + (a + b + c) + rest
  {
  }

  /** Hexadecimal digits, two by two, hold the same bits as the digits they are turned into. */
  lemma HexBits(hex: string)
    requires Over(hex, HEX) && |hex| % 2 == 0
    ensures SixBits(HexToBase64(hex)) == FourBits(hex) + Zeros(Padding(|hex| / 2))
  {
    hide SixBits, FourBits, HexToBase64Rec, Zeros, Padding, HEX;
    HexRecBits(hex, 0, "");
    assert hex[0..] == hex && SixBits("") == [];
    assert [] + FourBits(hex) == FourBits(hex);
  }

  // ----- Decoding -----

  /** What a decoded byte is shown as: the printing characters and the three blanks by their codes, other
      low codes as a space, and of the rest three as the blanks at the end of the table and none else. */
  function Glyph(code: nat): string {
    if code == 10 || code == 127 then "\n"
    else if code == 13 || code == 128 then "\r"
    else if code == 9 || code == 129 then "\t"
    else if code < 32 then " "
    else if code < 127 then [code as char]
    else ""
  }

  lemma GlyphIs(code: nat)
    requires code < 256
    ensures AsciiToChar(code) == Glyph(code)
  {
    if 32 <= code < 130 {
      assert Sub(ASCII, code - 32, 1) == [ASCII[code - 32]];
    }
  }

  function Number(bits: seq<bool>): nat {
    if bits == [] then 0 else 2 * Number(bits[..|bits| - 1]) + if bits[|bits| - 1] then 1 else 0
  }

  lemma {:induction false} NumberBits(n: nat, w: nat)
    requires n < Pow2(w)
    ensures Number(Bits(n, w)) == n
    decreases w
  {
    if w > 0 {
      NumberBits(n / 2, w - 1);
      assert Bits(n, w)[..w - 1] == Bits(n / 2, w - 1);
    }
  }

  /** The text of a string of bits, eight to a character; a rest of fewer is dropped. */
  function Shown(bits: seq<bool>): string
    decreases |bits|
  {
    if |bits| < 8 then "" else Glyph(Number(bits[..8])) + Shown(bits[8..])
  }

  lemma ShownByte(x: nat, rest: seq<bool>)
    requires x < 256
    ensures Shown(Bits(x, 8) + rest) == AsciiToChar(x) + Shown(rest)
  {
    hide Bits, AsciiToChar, Number, Glyph;
    Powers();
    NumberBits(x, 8);
    GlyphIs(x);
    var bits := Bits(x, 8) + rest;
    assert bits[..8] == Bits(x, 8) && bits[8..] == rest;
  }

  lemma PlaceIs(c: char)
    ensures Find(BASE64, c) >= 0 <==> InAlphabet(c)
    ensures Find(BASE64, c) >= 0 ==> Find(BASE64, c) == Place(c) < 64
  {
    hide Find;
    TablesDistinct();
    FindBounds(BASE64, c);
    if InAlphabet(c) {
      FindAt(BASE64, Place(c));
    } else if Find(BASE64, c) >= 0 {
      TableIs(Find(BASE64, c));
    }
  }

  /** Four digits, cut into bytes. */
  lemma QuadBytes(a: nat, b: nat, c: nat, d: nat)
    requires a < 64 && b < 64 && c < 64 && d < 64
    ensures var v := a * 262144 + b * 4096 + c * 64 + d;
      var x, y, z := And(v / 65536, 255), And(v / 256, 255), And(v, 255);
      && x < 256 && y < 256 && z < 256
      && Bits(a, 6) + Bits(b, 6) + Bits(c, 6) + Bits(d, 6) == Bits(x, 8) + Bits(y, 8) + Bits(z, 8)
  {
    hide Bits, And;
    DigitBits(a, b, c, d);
    MaskedBits(a * 262144 + b * 4096 + c * 64 + d);
  }

  lemma MaskedBits(v: nat)
    requires v < 16777216
    ensures var x, y, z := And(v / 65536, 255), And(v / 256, 255), And(v, 255);
      x < 256 && y < 256 && z < 256 && Bits(v, 24) == Bits(x, 8) + Bits(y, 8) + Bits(z, 8)
  {
    hide Bits, And;
    Mask(v / 65536);
    Mask(v / 256);
    Mask(v);
    ThreeBytes(v);
    ByteBits(v / 65536, v / 256 % 256, v % 256);
  }

  lemma ThreeBytes(v: nat)
    requires v < 16777216
    ensures v / 65536 < 256 && v / 65536 % 256 == v / 65536
    ensures v == v / 65536 * 65536 + v / 256 % 256 * 256 + v % 256
  {
    var x, r := v / 65536, v % 65536;
    var y, z := r / 256, r % 256;
    Bytes(x, y, z);
  }

  lemma PackedIs(s: string, i: nat, n: nat)
    requires Over(s, BASE64) && 2 <= n <= 4 && i + n <= |s|
    ensures var a, b, c, d := Place(s[i]), Place(s[i + 1]), if n > 2 then Place(s[i + 2]) else 0, if n > 3 then Place(s[i + 3]) else 0;
      a < 64 && b < 64 && c < 64 && d < 64 && Packed(s, i, n) == a * 262144 + b * 4096 + c * 64 + d
  {
    hide Or, Find, BASE64;
    PlaceIs(s[i]);
    PlaceIs(s[i + 1]);
    if n > 2 { PlaceIs(s[i + 2]); }
    if n > 3 { PlaceIs(s[i + 3]); }
    PackDigits(Place(s[i]), Place(s[i + 1]), if n > 2 then Place(s[i + 2]) else 0, if n > 3 then Place(s[i + 3]) else 0);
  }

  lemma SixTwo(s: string, i: nat)
    requires i + 2 <= |s|
    ensures SixBits(s[i..]) == Bits(Place(s[i]), 6) + Bits(Place(s[i + 1]), 6) + SixBits(s[i + 2..])
  {
    hide Bits;
    assert s[i..][1..] == s[i + 1..] && s[i + 1..][1..] == s[i + 2..];
    assert SixBits(s[i..]) == Bits(Place(s[i]), 6) + SixBits(s[i + 1..]);
    assert SixBits(s[i + 1..]) == Bits(Place(s[i + 1]), 6) + SixBits(s[i + 2..]);
  }

  lemma NoSix(s: string)
    requires s == ""
    ensures SixBits(s) == []
  {
  }

  lemma SameParts(a: seq<bool>, b: seq<bool>, c: seq<bool>, d: seq<bool>)
    ensures a + b + c + d == a + b + (c + d)
    ensures [] + b + c + d == b + c + d == b + (c + d)
  {
  }

  lemma SixOne(s: string, i: nat)
    requires |s| == i + 1
    ensures SixBits(s[i..]) == Bits(Place(s[i]), 6)
  {
    hide Bits;
    NoSix(s[i..][1..]);
  }

  /** What the first part is when two cuts of the same bits are compared. */
  lemma Front(first: seq<bool>, second: seq<bool>, left: seq<bool>, right: seq<bool>)
    requires first + second == left + right && |left| <= |first|
    ensures first == left + right[..|first| - |left|]
  {
    assert first == (first + second)[..|first|];
  }

  /** Four digits as three bytes. */
  lemma GroupOfFour(s: string, i: nat)
    requires Over(s, BASE64) && i + 4 <= |s|
    ensures var v := Packed(s, i, 4);
      SixBits(s[i..]) == Bits(And(v / 65536, 255), 8) + (Bits(And(v / 256, 255), 8) + (Bits(And(v, 255), 8) + SixBits(s[i + 4..])))
  {
    hide Bits, SixBits, And, Packed, Find, BASE64;
    var v := Packed(s, i, 4);
    var x, y, z := And(v / 65536, 255), And(v / 256, 255), And(v, 255);
    var rest := SixBits(s[i + 4..]);
    PackedIs(s, i, 4);
    SixTwo(s, i);
    SixTwo(s, i + 2);
    var a, b, c, d := Place(s[i]), Place(s[i + 1]), Place(s[i + 2]), Place(s[i + 3]);
    QuadBytes(a, b, c, d);
    assert Bits(a, 6) + Bits(b, 6) + (Bits(c, 6) + Bits(d, 6) + rest) == Bits(a, 6) + Bits(b, 6) + Bits(c, 6) + Bits(d, 6) + rest;
    assert Bits(x, 8) + Bits(y, 8) + Bits(z, 8) + rest == Bits(x, 8) + (Bits(y, 8) + (Bits(z, 8) + rest));
  }

  /** Two or three digits at the end, as one or two bytes and less than a byte. */
  lemma LastGroup(s: string, i: nat) returns (low: seq<bool>)
    requires Over(s, BASE64) && i + 2 <= |s| <= i + 3
    ensures |low| < 8
    ensures |s| == i + 2 ==> SixBits(s[i..]) == Bits(And(Packed(s, i, 2) / 65536, 255), 8) + low
    ensures |s| == i + 3 ==> SixBits(s[i..]) == Bits(And(Packed(s, i, 3) / 65536, 255), 8) + (Bits(And(Packed(s, i, 3) / 256, 255), 8) + low)
  {
    hide Bits, SixBits, And, Packed, Find, BASE64;
    var n := |s| - i;
    PackedIs(s, i, n);
    SixTwo(s, i);
    var a, b, c := Place(s[i]), Place(s[i + 1]), if n > 2 then Place(s[i + 2]) else 0;
    QuadBytes(a, b, c, 0);
    var v := Packed(s, i, n);
    var x, y, z := And(v / 65536, 255), And(v / 256, 255), And(v, 255);
    SameParts([], Bits(x, 8), Bits(y, 8), Bits(z, 8));
    if n == 2 {
      NoSix(s[i + 2..]);
      SameParts(Bits(a, 6), Bits(b, 6), Bits(c, 6), Bits(0, 6));
      Front(Bits(a, 6) + Bits(b, 6), Bits(c, 6) + Bits(0, 6), Bits(x, 8), Bits(y, 8) + Bits(z, 8));
      low := (Bits(y, 8) + Bits(z, 8))[..4];
      assert SixBits(s[i..]) == Bits(a, 6) + Bits(b, 6);
    } else {
      SixOne(s, i + 2);
      Front(Bits(a, 6) + Bits(b, 6) + Bits(c, 6), Bits(0, 6), Bits(x, 8), Bits(y, 8) + Bits(z, 8));
      low := Bits(z, 8)[..2];
      assert (Bits(y, 8) + Bits(z, 8))[..10] == Bits(y, 8) + low;
    }
  }

  lemma {:induction false} DecodeRecBits(s: string, i: nat, acc: string)
    requires Over(s, BASE64) && i <= |s|
    ensures DecodeRec(s, i, acc) == acc + Shown(SixBits(s[i..]))
    decreases |s| - i
  {
    hide Bits, SixBits, And, AsciiToChar, Packed, Shown;
    var left := |s| - i;
    if left > 3 {
      DecodeFour(s, i);
      var v := Packed(s, i, 4);
      var text := AsciiToChar(And(v / 65536, 255)) + (AsciiToChar(And(v / 256, 255)) + AsciiToChar(And(v, 255)));
      DecodeRecBits(s, i + 4, acc + text);
      assert acc + text + Shown(SixBits(s[i + 4..])) == acc + (text + Shown(SixBits(s[i + 4..])));
    } else {
      DecodeRest(s, i);
      assert left < 2 ==> acc + "" == acc;
    }
  }

  lemma DecodeFour(s: string, i: nat)
    requires Over(s, BASE64) && i + 4 <= |s|
    ensures var v := Packed(s, i, 4);
      Shown(SixBits(s[i..])) == AsciiToChar(And(v / 65536, 255)) + (AsciiToChar(And(v / 256, 255)) + AsciiToChar(And(v, 255)))
                                + Shown(SixBits(s[i + 4..]))
  {
    hide Bits, SixBits, And, AsciiToChar, Packed, Shown, Find, BASE64;
    var v := Packed(s, i, 4);
    var x, y, z := And(v / 65536, 255), And(v / 256, 255), And(v, 255);
    var rest := SixBits(s[i + 4..]);
    GroupOfFour(s, i);
    Mask(v / 65536);
    Mask(v / 256);
    Mask(v);
    ShownByte(x, Bits(y, 8) + (Bits(z, 8) + rest));
    ShownByte(y, Bits(z, 8) + rest);
    ShownByte(z, rest);
    SameText(AsciiToChar(x), AsciiToChar(y), AsciiToChar(z), Shown(rest));
  }

  lemma SameText(a: string, b: string, c: string, d: string)
    ensures a + (b + (c + d)) == a + (b + c) + d
  {
  }

  /** A last group of fewer than four digits. */
  lemma DecodeRest(s: string, i: nat)
    requires Over(s, BASE64) && i <= |s| <= i + 3
    ensures |s| < i + 2 ==> Shown(SixBits(s[i..])) == ""
    ensures |s| == i + 2 ==> Shown(SixBits(s[i..])) == AsciiToChar(And(Packed(s, i, 2) / 65536, 255))
    ensures |s| == i + 3 ==> Shown(SixBits(s[i..])) == AsciiToChar(And(Packed(s, i, 3) / 65536, 255)) + AsciiToChar(And(Packed(s, i, 3) / 256, 255))
  {
    hide Bits, SixBits, And, AsciiToChar, Packed, Shown, Find, BASE64;
    if |s| < i + 2 {
      NothingShown(SixBits(s[i..]));
    } else {
      var low := LastGroup(s, i);
      var v := Packed(s, i, |s| - i);
      var y := Bits(And(v / 256, 255), 8);
      Mask(v / 65536);
      Mask(v / 256);
      ShownByte(And(v / 65536, 255), if |s| == i + 3 then y + low else low);
      ShownByte(And(v / 256, 255), low);
      NothingShown(low);
      assert AsciiToChar(And(v / 65536, 255)) + "" == AsciiToChar(And(v / 65536, 255));
    }
  }

  lemma NothingShown(bits: seq<bool>)
    requires |bits| < 8
    ensures Shown(bits) == ""
  {
  }

  /** Every text over the alphabet decodes to its bits, eight to a character, and a rest of them is dropped. */
  lemma DecodeBits(s: string)
    requires forall i | 0 <= i < |s| :: InAlphabet(s[i])
    ensures Over(s, BASE64) && Decode(s) == Shown(SixBits(s))
  {
    hide Shown, SixBits, Find, InAlphabet, BASE64;
    forall i | 0 <= i < |s| ensures Find(BASE64, s[i]) >= 0 { PlaceIs(s[i]); }
    DecodeRecBits(s, 0, "");
    assert s[0..] == s;
  }

  // ----- Base64url to hexadecimal -----

  /** The bits that fill whole bytes. */
  function Whole(bits: seq<bool>): seq<bool> {
    bits[..|bits| / 8 * 8]
  }

  lemma WholeByte(x: nat, rest: seq<bool>)
    ensures Whole(Bits(x, 8) + rest) == Bits(x, 8) + Whole(rest)
  {
    hide Bits;
  }

  lemma HexCharIs(v: nat)
    requires v < 16
    ensures |HexChar(v)| == 1 && Nibble(HexChar(v)[0]) == v && FourBits(HexChar(v)) == Bits(v, 4)
  {
    hide Bits, Find;
    TablesDistinct();
    DigitComesBack(HEX, v);
    NibbleIs(HEX[v]);
    var c := HexChar(v);
    assert c[1..] == "" && FourBits("") == [];
  }

  /** A byte of a group and its two digits. */
  lemma PairFour(val: nat, high: nat)
    requires high > 0
    ensures FourBits(HexPair(val, high)) == Bits(And(val / high, 255), 8)
  {
    hide Bits, And, FourBits, HexChar;
    var x := val / high;
    Powers();
    DivDiv(val, high);
    Mask(x / 16);
    Mask(x);
    Halves(x);
    HexCharIs(x / 16 % 16);
    HexCharIs(x % 16);
    FourJoin(HexChar(x / 16 % 16), HexChar(x % 16));
    BitsSplit(x / 16 % 16, 4, x % 16, 4);
  }

  lemma Halves(x: nat)
    ensures x % 256 == x / 16 % 16 * 16 + x % 16
  {
    ModUnique(x / 16, 16, x / 256, x / 16 % 16);
    ModUnique(x, 256, x / 256, x / 16 % 16 * 16 + x % 16);
  }

  lemma {:induction false} ToHexRecBits(s: string, i: nat, acc: string)
    requires Over(s, BASE64) && i <= |s|
    ensures FourBits(Base64ToHexRec(s, i, acc)) == FourBits(acc) + Whole(SixBits(s[i..]))
    decreases |s| - i
  {
    hide Bits, SixBits, FourBits, Packed, Whole, HexPair;
    var left := |s| - i;
    if left > 3 {
      ToHexFour(s, i);
      var v := Packed(s, i, 4);
      var text := HexPair(v, 65536) + (HexPair(v, 256) + HexPair(v, 1));
      ToHexRecBits(s, i + 4, acc + text);
      FourJoin(acc, text);
      assert FourBits(acc) + FourBits(text) + Whole(SixBits(s[i + 4..])) == FourBits(acc) + (FourBits(text) + Whole(SixBits(s[i + 4..])));
    } else {
      ToHexRest(s, i);
      if left == 3 {
        var v := Packed(s, i, 3);
        FourJoin(acc, HexPair(v, 65536) + HexPair(v, 256));
      } else if left == 2 {
        FourJoin(acc, HexPair(Packed(s, i, 2), 65536));
      }
    }
  }

  lemma ToHexFour(s: string, i: nat)
    requires Over(s, BASE64) && i + 4 <= |s|
    ensures var v := Packed(s, i, 4);
      Whole(SixBits(s[i..])) == FourBits(HexPair(v, 65536) + (HexPair(v, 256) + HexPair(v, 1))) + Whole(SixBits(s[i + 4..]))
  {
    hide Bits, SixBits, And, FourBits, Packed, Whole, Find, BASE64, HexPair;
    var v := Packed(s, i, 4);
    var x, y, z := And(v / 65536, 255), And(v / 256, 255), And(v / 1, 255);
    var rest := SixBits(s[i + 4..]);
    GroupOfFour(s, i);
    WholeByte(x, Bits(y, 8) + (Bits(z, 8) + rest));
    WholeByte(y, Bits(z, 8) + rest);
    WholeByte(z, rest);
    PairFour(v, 65536);
    PairFour(v, 256);
    PairFour(v, 1);
    FourJoin(HexPair(v, 65536), HexPair(v, 256) + HexPair(v, 1));
    FourJoin(HexPair(v, 256), HexPair(v, 1));
    SameBits(Bits(x, 8), Bits(y, 8), Bits(z, 8), Whole(rest));
  }

  lemma SameBits(a: seq<bool>, b: seq<bool>, c: seq<bool>, d: seq<bool>)
    ensures a + (b + (c + d)) == a + (b + c) + d
  {
  }

  lemma ToHexRest(s: string, i: nat)
    requires Over(s, BASE64) && i <= |s| <= i + 3
    ensures |s| < i + 2 ==> Whole(SixBits(s[i..])) == []
    ensures |s| == i + 2 ==> Whole(SixBits(s[i..])) == FourBits(HexPair(Packed(s, i, 2), 65536))
    ensures |s| == i + 3 ==> Whole(SixBits(s[i..])) == FourBits(HexPair(Packed(s, i, 3), 65536) + HexPair(Packed(s, i, 3), 256))
  {
    hide Bits, SixBits, And, FourBits, Packed, Find, BASE64, HexPair;
    if |s| >= i + 2 {
      var low := LastGroup(s, i);
      var v := Packed(s, i, |s| - i);
      PairFour(v, 65536);
      PairFour(v, 256);
      var y := Bits(And(v / 256, 255), 8);
      WholeByte(And(v / 65536, 255), if |s| == i + 3 then y + low else low);
      WholeByte(And(v / 256, 255), low);
      FourJoin(HexPair(v, 65536), HexPair(v, 256));
    }
  }

  /** The hexadecimal digits of a text over the alphabet hold its bits, as far as they fill bytes. */
  lemma ToHexBits(s: string)
    requires forall i | 0 <= i < |s| :: InAlphabet(s[i])
    ensures Over(s, BASE64) && FourBits(Base64ToHex(s)) == Whole(SixBits(s))
  {
    hide Whole, SixBits, FourBits, Find, InAlphabet, BASE64;
    forall i | 0 <= i < |s| ensures Find(BASE64, s[i]) >= 0 { PlaceIs(s[i]); }
    ToHexRecBits(s, 0, "");
    assert s[0..] == s;
    NoFour("");
  }

  /** Of an odd number of hexadecimal digits, the whole last group is lost. */
  lemma {:induction false} OddLosesGroup(hex: string, i: nat, acc: string)
    requires Over(hex, HEX) && i <= |hex| && (|hex| - i) % 2 == 1
    ensures HexToBase64Rec(hex, i, acc) == HexToBase64Rec(hex[..i + (|hex| - i) / 6 * 6], i, acc)
    decreases |hex| - i
  {
    hide Val, Digits64, Or;
    if |hex| - i > 5 {
      var to := i + (|hex| - i) / 6 * 6;
      var front := hex[..to];
      assert to == i + 6 + (|hex| - (i + 6)) / 6 * 6;
      forall j | i <= j < i + 6 ensures Val(HEX, hex, j) == Val(HEX, front, j) { SameDigit(hex, to, j); }
      var val := Or(Or(Or(Or(Or(Val(HEX, hex, i) * 1048576, Val(HEX, hex, i + 1) * 65536), Val(HEX, hex, i + 2) * 4096),
                          Val(HEX, hex, i + 3) * 256), Val(HEX, hex, i + 4) * 16), Val(HEX, hex, i + 5));
      var (c1, c2, c3, c4) := Digits64(val);
      OddLosesGroup(hex, i + 6, acc + (c1 + (c2 + (c3 + c4))));
    }
  }

  lemma SameDigit(hex: string, to: nat, j: nat)
    requires Over(hex, HEX) && j < to <= |hex|
    ensures Over(hex[..to], HEX) && Val(HEX, hex, j) == Val(HEX, hex[..to], j)
  {
  }

  lemma OddLost(hex: string)
    requires Over(hex, HEX) && |hex| % 2 == 1
    ensures HexToBase64(hex) == HexToBase64(hex[..|hex| / 6 * 6])
  {
    hide HexToBase64Rec;
    OddLosesGroup(hex, 0, "");
  }
}
