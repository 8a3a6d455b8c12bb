/** The text codecs of `lib/jwt.llm`: base64url (section 5 of RFC 4648) and hexadecimal. */
module Codec {

  // ----- The primitives of the language -----

  /** `&` and `|` on numbers that are not negative. */
  function And(a: nat, b: nat): nat {
    if a == 0 || b == 0 then 0 else 2 * And(a / 2, b / 2) + (if a % 2 == 1 && b % 2 == 1 then 1 else 0)
  }

  function Or(a: nat, b: nat): nat {
    if a == 0 && b == 0 then 0 else 2 * Or(a / 2, b / 2) + (if a % 2 == 1 || b % 2 == 1 then 1 else 0)
  }

  /** `sf`: the first place of a character, or -1. */
  function Find(s: string, c: char): int {
    if s == "" then -1 else if s[0] == c then 0 else if Find(s[1..], c) == -1 then -1 else 1 + Find(s[1..], c)
  }

  function Pow2(k: nat): (p: nat)
    ensures p > 0
  {
    if k == 0 then 1 else 2 * Pow2(k - 1)
  }

  /** A mask of low bits is a remainder. */
  lemma {:induction false} AndMask(a: nat, k: nat)
    ensures And(a, Pow2(k) - 1) == a % Pow2(k)
    decreases k
  {
    if k > 0 {
      var m := Pow2(k - 1);
      assert (2 * m - 1) / 2 == m - 1 && (2 * m - 1) % 2 == 1;
      HalfMod(a, m);
      if a > 0 { AndMask(a / 2, k - 1); } else { ModUnique(0, 2 * m, 0, 0); }
    } else {
      ModUnique(a, 1, a, 0);
    }
  }

  lemma HalfMod(a: nat, m: nat)
    requires m > 0
    ensures a % (2 * m) == 2 * (a / 2 % m) + a % 2
  {
    var q, r := a / 2 / m, a / 2 % m;
    assert a == 2 * (m * q + r) + a % 2;
    assert a == (2 * m) * q + (2 * r + a % 2);
    ModUnique(a, 2 * m, q, 2 * r + a % 2);
  }

  lemma ModUnique(a: nat, m: nat, q: nat, r: nat)
    requires r < m && a == m * q + r
    ensures a % m == r && a / m == q
  {
    var p, s := a / m, a % m;
    assert a == m * p + s;
    assert m * (p - q) == m * p - m * q;
    Multiple(m, p - q);
  }

  lemma Multiple(m: nat, d: int)
    ensures d > 0 ==> m * d >= m
    ensures d < 0 ==> m * d <= 0 - m
  {
    if d > 0 {
      Product(m, d - 1);
    } else if d < 0 {
      Product(m, -1 - d);
      assert m * d == 0 - (m * (-1 - d) + m);
    }
  }

  lemma {:induction false} Product(m: nat, k: nat)
    ensures m * k >= 0 && m * (k + 1) == m * k + m
  {
    if k > 0 {
      Product(m, k - 1);
    }
  }

  /** Numbers with no bit in common are added. */
  lemma {:induction false} OrDisjoint(a: nat, b: nat, k: nat)
    requires a % Pow2(k) == 0 && b < Pow2(k)
    ensures Or(a, b) == a + b
    decreases k
  {
    if k == 0 {
      OrZero(a);
    } else if a > 0 || b > 0 {
      var m := Pow2(k - 1);
      HalfMod(a, m);
      OrDisjoint(a / 2, b / 2, k - 1);
    }
  }

  lemma {:induction false} OrZero(a: nat)
    ensures Or(a, 0) == a
  {
    if a > 0 {
      OrZero(a / 2);
    }
  }

  // ----- The tables -----

  function Run(first: char, n: nat): (s: string)
    requires first as int + n <= 128
    ensures |s| == n && forall i | 0 <= i < n :: s[i] == (first as int + i) as char
  {
    seq(n, i requires 0 <= i < n => (first as int + i) as char)
  }

  /** The 95 printing characters in their order, then newline, carriage return and tab. */
  const ASCII: string := Run(' ', 95) + "\n\r\t"

  const BASE64: string := Run('A', 26) + Run('a', 26) + Run('0', 10) + "-_"

  const HEX: string := Run('0', 10) + Run('a', 6)

  predicate Distinct(s: string) {
    forall i, j | 0 <= i < j < |s| :: s[i] != s[j]
  }

  lemma {:induction false} FindAt(s: string, i: nat)
    requires Distinct(s) && i < |s|
    ensures Find(s, s[i]) == i
    decreases |s|
  {
    if i > 0 {
      assert s[0] != s[i];
      assert Distinct(s[1..]);
      FindAt(s[1..], i - 1);
      assert s[1..][i - 1] == s[i];
    }
  }

  lemma TablesDistinct()
    ensures |ASCII| == 98 && Distinct(ASCII) && |BASE64| == 64 && Distinct(BASE64) && |HEX| == 16 && Distinct(HEX)
  {
  }

  /** `ss`: the piece of a string from `start` on, cut to what is there. */
  function Sub(s: string, start: int, len: int): string {
    var from := if start < 0 then 0 else start;
    if from >= |s| then ""
    else
      var n := if len < 0 then 0 else len;
      if from + n > |s| then s[from..] else s[from..from + n]
  }

  // ----- Characters and numbers -----

  function CharToAscii(c: char): nat {
    var idx := Find(ASCII, c);
    if idx < 0 then 0 else if idx == 95 then 10 else if idx == 96 then 13 else if idx == 97 then 9 else idx + 32
  }

  function AsciiToChar(code: nat): string {
    if code == 10 then "\n" else if code == 13 then "\r" else if code == 9 then "\t" else Sub(ASCII, code - 32, 1)
  }

  function Base64Char(val: nat): string { Sub(BASE64, val, 1) }

  function HexChar(val: nat): string { Sub(HEX, val, 1) }

  predicate Over(s: string, table: string) {
    forall i | 0 <= i < |s| :: Find(table, s[i]) >= 0
  }

  function Val(table: string, s: string, i: nat): (v: nat)
    requires Over(s, table) && i < |s|
  {
    Find(table, s[i])
  }

  /** A character of the table comes back; any other comes back as a blank. */
  lemma CharComesBack(c: char)
    ensures CharToAscii(c) < 128
    ensures AsciiToChar(CharToAscii(c)) == if Find(ASCII, c) >= 0 then [c] else " "
  {
    TablesDistinct();
    FindBounds(ASCII, c);
  }

  lemma {:induction false} FindBounds(s: string, c: char)
    ensures -1 <= Find(s, c) < |s| && (Find(s, c) >= 0 ==> s[Find(s, c)] == c)
    decreases |s|
  {
    if s != "" && s[0] != c {
      FindBounds(s[1..], c);
    }
  }

  lemma DigitComesBack(table: string, val: nat)
    requires Distinct(table) && val < |table|
    ensures Sub(table, val, 1) == [table[val]] && Find(table, table[val]) == val
  {
    FindAt(table, val);
  }

  // ----- Base64url -----

  /** The digits of a group of 24 bits. */
  function Digits64(val: nat): (string, string, string, string) {
    (Base64Char(And(val / 262144, 63)), Base64Char(And(val / 4096, 63)), Base64Char(And(val / 64, 63)), Base64Char(And(val, 63)))
  }

  /** `b64_encode_rec` */
  function EncodeRec(s: string, i: nat, acc: string): string
    requires i <= |s|
    decreases |s| - i
  {
    if |s| - i > 2 then
      var val := Or(Or(CharToAscii(s[i]) * 65536, CharToAscii(s[i + 1]) * 256), CharToAscii(s[i + 2]));
      var (c1, c2, c3, c4) := Digits64(val);
      EncodeRec(s, i + 3, acc + (c1 + (c2 + (c3 + c4))))
    else if |s| - i == 2 then
      var (c1, c2, c3, _) := Digits64(Or(CharToAscii(s[i]) * 65536, CharToAscii(s[i + 1]) * 256));
      acc + (c1 + (c2 + c3))
    else if |s| - i == 1 then
      var (c1, c2, _, _) := Digits64(CharToAscii(s[i]) * 65536);
      acc + (c1 + c2)
    else acc
  }

  function Encode(s: string): string {
    EncodeRec(s, 0, "")
  }

  /** `n` digits put together as the decoders do. */
  function Packed(s: string, i: nat, n: nat): nat
    requires Over(s, BASE64) && 2 <= n <= 4 && i + n <= |s|
  {
    var two := Or(Val(BASE64, s, i) * 262144, Val(BASE64, s, i + 1) * 4096);
    if n == 2 then two else
    var three := Or(two, Val(BASE64, s, i + 2) * 64);
    if n == 3 then three else Or(three, Val(BASE64, s, i + 3))
  }

  /** `b64_decode_rec` */
  function DecodeRec(s: string, i: nat, acc: string): string
    requires Over(s, BASE64) && i <= |s|
    decreases |s| - i
  {
    if |s| - i > 3 then
      var val := Packed(s, i, 4);
      DecodeRec(s, i + 4, acc + (AsciiToChar(And(val / 65536, 255)) + (AsciiToChar(And(val / 256, 255)) + AsciiToChar(And(val, 255)))))
    else if |s| - i == 3 then
      var val := Packed(s, i, 3);
      acc + (AsciiToChar(And(val / 65536, 255)) + AsciiToChar(And(val / 256, 255)))
    else if |s| - i == 2 then
      var val := Packed(s, i, 2);
      acc + AsciiToChar(And(val / 65536, 255))
    else acc
  }

  function Decode(s: string): string
    requires Over(s, BASE64)
  {
    DecodeRec(s, 0, "")
  }

  // ----- The bits -----

  lemma Powers()
    ensures Pow2(4) == 16 && Pow2(6) == 64 && Pow2(8) == 256 && Pow2(12) == 4096 && Pow2(16) == 65536 && Pow2(18) == 262144 && Pow2(20) == 1048576
  {
    assert Pow2(4) == 16;
    assert Pow2(8) == 256;
    assert Pow2(12) == 4096;
    assert Pow2(16) == 65536;
    assert Pow2(20) == 1048576;
    assert Pow2(6) == 64;
    assert Pow2(18) == 262144;
  }

  lemma Mask(a: nat)
    ensures And(a, 15) == a % 16 && And(a, 63) == a % 64 && And(a, 255) == a % 256
  {
    Powers();
    AndMask(a, 4);
    AndMask(a, 6);
    AndMask(a, 8);
  }

  /** Three bytes put together. */
  lemma PackBytes(a: nat, b: nat, c: nat)
    requires a < 256 && b < 256 && c < 256
    ensures Or(a * 65536, b * 256) == a * 65536 + b * 256
    ensures Or(Or(a * 65536, b * 256), c) == a * 65536 + b * 256 + c
  {
    hide Or;
    Powers();
    ModUnique(a * 65536, 65536, a, 0);
    OrDisjoint(a * 65536, b * 256, 16);
    ModUnique(a * 65536 + b * 256, 256, a * 256 + b, 0);
    OrDisjoint(a * 65536 + b * 256, c, 8);
  }

  /** Four base64 digits put together. */
  lemma PackDigits(a: nat, b: nat, c: nat, d: nat)
    requires a < 64 && b < 64 && c < 64 && d < 64
    ensures Or(a * 262144, b * 4096) == a * 262144 + b * 4096
    ensures Or(Or(a * 262144, b * 4096), c * 64) == a * 262144 + b * 4096 + c * 64
    ensures Or(Or(Or(a * 262144, b * 4096), c * 64), d) == a * 262144 + b * 4096 + c * 64 + d
  {
    hide Or;
    Powers();
    ModUnique(a * 262144, 262144, a, 0);
    OrDisjoint(a * 262144, b * 4096, 18);
    ModUnique(a * 262144 + b * 4096, 4096, a * 64 + b, 0);
    OrDisjoint(a * 262144 + b * 4096, c * 64, 12);
    ModUnique(a * 262144 + b * 4096 + c * 64, 64, a * 4096 + b * 64 + c, 0);
    OrDisjoint(a * 262144 + b * 4096 + c * 64, d, 6);
  }

  /** A number of 24 bits, cut into digits and into bytes. */
  lemma Cut(v: nat)
    requires v < 16777216
    ensures v / 262144 < 64
    ensures v == v / 262144 * 262144 + v / 4096 % 64 * 4096 + v / 64 % 64 * 64 + v % 64
    ensures v % 256 == 0 ==> v % 64 == 0
    ensures v % 65536 == 0 ==> v / 64 % 64 == 0 && v % 64 == 0
  {
    var a, r := v / 262144, v % 262144;
    var b, q := r / 4096, r % 4096;
    CutDigits(a, b, q / 64, q % 64);
    if v % 256 == 0 { ModUnique(v, 64, 4 * (v / 256), 0); }
    if v % 65536 == 0 {
      ModUnique(v, 64, 1024 * (v / 65536), 0);
      ModUnique(1024 * (v / 65536), 64, 16 * (v / 65536), 0);
    }
  }

  /** Four digits put together, and found again. */
  lemma CutDigits(a: nat, b: nat, c: nat, d: nat)
    requires a < 64 && b < 64 && c < 64 && d < 64
    ensures var v := a * 262144 + b * 4096 + c * 64 + d;
      v / 262144 == a && v / 4096 % 64 == b && v / 64 % 64 == c && v % 64 == d
  {
    var v := a * 262144 + b * 4096 + c * 64 + d;
    ModUnique(v, 262144, a, b * 4096 + c * 64 + d);
    ModUnique(v, 4096, a * 64 + b, c * 64 + d);
    ModUnique(v, 64, a * 4096 + b * 64 + c, d);
    ModUnique(a * 64 + b, 64, a, b);
    ModUnique(a * 4096 + b * 64 + c, 64, a * 64 + b, c);
  }

  lemma Bytes(a: nat, b: nat, c: nat)
    requires a < 256 && b < 256 && c < 256
    ensures var v := a * 65536 + b * 256 + c; v < 16777216 && v / 65536 % 256 == a && v / 256 % 256 == b && v % 256 == c
  {
    var v := a * 65536 + b * 256 + c;
    ModUnique(v, 65536, a, b * 256 + c);
    ModUnique(v, 256, a * 256 + b, c);
    ModUnique(a * 256 + b, 256, a, b);
  }

  // ----- What comes back -----

  function Blank(c: char): char {
    if Find(ASCII, c) >= 0 then c else ' '
  }

  function Blanked(s: string): (r: string)
    ensures |r| == |s|
  {
    if s == "" then "" else [Blank(s[0])] + Blanked(s[1..])
  }

  function Digit64(val: nat): char
    requires val < 64
  {
    BASE64[val]
  }

  /** What `Digits64` yields for 24 bits: four characters that read back as the bits. */
  lemma DigitsOf(v: nat)
    requires v < 16777216
    ensures Digits64(v) == ([Digit64(v / 262144)], [Digit64(v / 4096 % 64)], [Digit64(v / 64 % 64)], [Digit64(v % 64)])
    ensures Find(BASE64, Digit64(v / 262144)) == v / 262144 && Find(BASE64, Digit64(v / 4096 % 64)) == v / 4096 % 64
    ensures Find(BASE64, Digit64(v / 64 % 64)) == v / 64 % 64 && Find(BASE64, Digit64(v % 64)) == v % 64
  {
    hide Find, And, Sub, BASE64;
    TablesDistinct();
    Cut(v);
    Mask(v / 262144);
    Mask(v / 4096);
    Mask(v / 64);
    Mask(v);
    ModUnique(v / 262144, 64, 0, v / 262144);
    DigitComesBack(BASE64, v / 262144);
    DigitComesBack(BASE64, v / 4096 % 64);
    DigitComesBack(BASE64, v / 64 % 64);
    DigitComesBack(BASE64, v % 64);
  }

  lemma CharsBack(a: char, b: char, c: char)
    ensures var v := CharToAscii(a) * 65536 + CharToAscii(b) * 256 + CharToAscii(c);
      && v < 16777216
      && AsciiToChar(And(v / 65536, 255)) == [Blank(a)]
      && AsciiToChar(And(v / 256, 255)) == [Blank(b)]
      && AsciiToChar(And(v, 255)) == [Blank(c)]
  {
    hide Find, And, AsciiToChar, CharToAscii;
    CharComesBack(a);
    CharComesBack(b);
    CharComesBack(c);
    var v := CharToAscii(a) * 65536 + CharToAscii(b) * 256 + CharToAscii(c);
    Bytes(CharToAscii(a), CharToAscii(b), CharToAscii(c));
    Mask(v / 65536);
    Mask(v / 256);
    Mask(v);
  }

  lemma OverAppend(s: string, t: string, table: string)
    requires Over(s, table) && Over(t, table)
    ensures Over(s + t, table)
  {
  }

  /** The four digits of 24 bits in one text. */
  function Quad(v: nat): (q: string)
    requires v < 16777216
    ensures |q| == 4
  {
    assert v / 262144 < 64;
    [Digit64(v / 262144), Digit64(v / 4096 % 64), Digit64(v / 64 % 64), Digit64(v % 64)]
  }

  /** The digits as they are appended. */
  lemma Joined(v: nat)
    requires v < 16777216
    ensures var (c1, c2, c3, c4) := Digits64(v);
      c1 + (c2 + (c3 + c4)) == Quad(v) && c1 + (c2 + c3) == Quad(v)[..3] && c1 + c2 == Quad(v)[..2]
  {
    hide Digits64, Digit64;
    DigitsOf(v);
  }

  /** The bits of three characters. */
  function Bits(a: nat, b: nat, c: nat): nat { a * 65536 + b * 256 + c }

  lemma QuadOver(v: nat, n: nat)
    requires v < 16777216 && n <= 4
    ensures Over(Quad(v)[..n], BASE64)
  {
    hide Find, BASE64;
    DigitsOf(v);
  }

  /** A group of three, two or one characters, encoded. */
  lemma EncodeGroup(s: string, i: nat, acc: string)
    requires i < |s|
    ensures |s| - i > 2 ==>
      var v := Bits(CharToAscii(s[i]), CharToAscii(s[i + 1]), CharToAscii(s[i + 2]));
      v < 16777216 && EncodeRec(s, i, acc) == EncodeRec(s, i + 3, acc + Quad(v))
    ensures |s| - i == 2 ==>
      var v := Bits(CharToAscii(s[i]), CharToAscii(s[i + 1]), 0); v < 16777216 && EncodeRec(s, i, acc) == acc + Quad(v)[..3]
    ensures |s| - i == 1 ==>
      var v := Bits(CharToAscii(s[i]), 0, 0); v < 16777216 && EncodeRec(s, i, acc) == acc + Quad(v)[..2]
  {
    hide Find, And, Or, CharToAscii, Digits64, Quad;
    CharComesBack(s[i]);
    var a := CharToAscii(s[i]);
    if |s| - i > 2 {
      CharComesBack(s[i + 1]);
      CharComesBack(s[i + 2]);
      var v := Bits(a, CharToAscii(s[i + 1]), CharToAscii(s[i + 2]));
      PackBytes(a, CharToAscii(s[i + 1]), CharToAscii(s[i + 2]));
      Joined(v);
    } else if |s| - i == 2 {
      CharComesBack(s[i + 1]);
      var v := Bits(a, CharToAscii(s[i + 1]), 0);
      PackBytes(a, CharToAscii(s[i + 1]), 0);
      Joined(v);
    } else {
      var v := Bits(a, 0, 0);
      Joined(v);
    }
  }

  /** Encoding keeps what it has accumulated. */
  lemma {:induction false} EncodeKeeps(s: string, i: nat, acc: string)
    requires i <= |s| && Over(acc, BASE64)
    ensures acc <= EncodeRec(s, i, acc) && Over(EncodeRec(s, i, acc), BASE64)
    decreases |s| - i
  {
    hide Find, Quad, CharToAscii, BASE64;
    if i < |s| {
      hide EncodeRec;
      EncodeGroup(s, i, acc);
      if |s| - i > 2 {
        var v := Bits(CharToAscii(s[i]), CharToAscii(s[i + 1]), CharToAscii(s[i + 2]));
        QuadOver(v, 4);
        assert Quad(v)[..4] == Quad(v);
        EncodeKeeps(s, i + 3, acc + Quad(v));
      } else if |s| - i == 2 {
        QuadOver(Bits(CharToAscii(s[i]), CharToAscii(s[i + 1]), 0), 3);
      } else {
        QuadOver(Bits(CharToAscii(s[i]), 0, 0), 2);
      }
    }
  }

  /** What stands in a text behind `acc`. */
  predicate Follows(t: string, k: nat, q: string) {
    k + |q| <= |t| && t[k..k + |q|] == q
  }

  /** The digits of a quad, read back. */
  lemma ReadQuad(t: string, k: nat, v: nat, n: nat)
    requires 2 <= n <= 4 && v < 16777216 && Follows(t, k, Quad(v)[..n])
    ensures Find(BASE64, t[k]) == v / 262144 < 64 && Find(BASE64, t[k + 1]) == v / 4096 % 64
    ensures n > 2 ==> Find(BASE64, t[k + 2]) == v / 64 % 64
    ensures n > 3 ==> Find(BASE64, t[k + 3]) == v % 64
  {
    hide Find, BASE64;
    DigitsOf(v);
    Cut(v);
    forall j | 0 <= j < n ensures t[k + j] == Quad(v)[j] { assert t[k + j] == t[k..k + n][j]; }
    assert t[k] == Quad(v)[0] && t[k + 1] == Quad(v)[1];
    assert n > 2 ==> t[k + 2] == Quad(v)[2];
    assert n > 3 ==> t[k + 3] == Quad(v)[3];
  }

  /** What is put together from a quad, or the part of one that ends the text. */
  lemma ReadBits(t: string, k: nat, x: nat, y: nat, z: nat, n: nat)
    requires Over(t, BASE64) && x < 256 && y < 256 && z < 256 && 2 <= n <= 4
    requires (n <= 3 ==> z == 0) && (n == 2 ==> y == 0) && Follows(t, k, Quad(Bits(x, y, z))[..n])
    ensures Packed(t, k, n) == Bits(x, y, z)
  {
    hide Find, And, Or, BASE64, Quad;
    var v := Bits(x, y, z);
    ReadQuad(t, k, v, n);
    Cut(v);
    PackDigits(v / 262144, v / 4096 % 64, v / 64 % 64, v % 64);
    if n == 3 {
      ModUnique(v, 256, x * 256 + y, 0);
    } else if n == 2 {
      ModUnique(v, 65536, x, 0);
    }
  }

  lemma Appended(acc: string, q: string, t: string)
    requires acc + q <= t
    ensures Follows(t, |acc|, q)
  {
    assert t[..|acc| + |q|] == acc + q;
    assert t[|acc|..|acc| + |q|] == t[..|acc| + |q|][|acc|..];
  }

  /** A quad, or the part of one that ends the text, decoded. */
  lemma DecodeGroup(t: string, k: nat, done: string, a: char, b: char, c: char, n: nat)
    requires Over(t, BASE64) && 2 <= n <= 4
    requires n < 4 ==> k + n == |t| && (n <= 3 ==> CharToAscii(c) == 0) && (n <= 2 ==> CharToAscii(b) == 0)
    requires var v := Bits(CharToAscii(a), CharToAscii(b), CharToAscii(c)); v < 16777216 && Follows(t, k, Quad(v)[..n])
    ensures DecodeRec(t, k, done) ==
      if n == 4 then DecodeRec(t, k + 4, done + ([Blank(a)] + ([Blank(b)] + [Blank(c)])))
      else if n == 3 then done + ([Blank(a)] + [Blank(b)])
      else done + [Blank(a)]
  {
    hide Find, And, Packed, CharToAscii, AsciiToChar, BASE64, Blank, Quad;
    CharsBack(a, b, c);
    CharComesBack(a);
    CharComesBack(b);
    CharComesBack(c);
    ReadBits(t, k, CharToAscii(a), CharToAscii(b), CharToAscii(c), n);
  }

  /** A whole group of three characters goes through both ways. */
  lemma EncodeStep(s: string, i: nat, acc: string, done: string)
    requires i + 3 <= |s| && Over(acc, BASE64)
    ensures var v := Bits(CharToAscii(s[i]), CharToAscii(s[i + 1]), CharToAscii(s[i + 2])); var t := EncodeRec(s, i, acc);
      && v < 16777216 && Over(acc + Quad(v), BASE64) && Over(t, BASE64) && |acc| + 4 <= |t|
      && t == EncodeRec(s, i + 3, acc + Quad(v))
      && DecodeRec(t, |acc|, done) == DecodeRec(t, |acc| + 4, done + ([Blank(s[i])] + ([Blank(s[i + 1])] + [Blank(s[i + 2])])))
  {
    hide Find, Quad, CharToAscii, Blank, BASE64, And, Or, AsciiToChar, EncodeRec, DecodeRec;
    EncodeGroup(s, i, acc);
    var v := Bits(CharToAscii(s[i]), CharToAscii(s[i + 1]), CharToAscii(s[i + 2]));
    QuadOver(v, 4);
    assert Quad(v)[..4] == Quad(v);
    OverAppend(acc, Quad(v), BASE64);
    EncodeKeeps(s, i + 3, acc + Quad(v));
    Appended(acc, Quad(v), EncodeRec(s, i, acc));
    DecodeGroup(EncodeRec(s, i, acc), |acc|, done, s[i], s[i + 1], s[i + 2], 4);
  }

  /** Decoding, from behind what was accumulated before. */
  lemma {:induction false} DecodeEncodeRec(s: string, i: nat, acc: string, done: string)
    requires i <= |s| && Over(acc, BASE64)
    ensures Over(EncodeRec(s, i, acc), BASE64) && |acc| <= |EncodeRec(s, i, acc)|
    ensures DecodeRec(EncodeRec(s, i, acc), |acc|, done) == done + Blanked(s[i..])
    decreases |s| - i
  {
    hide Find, Quad, CharToAscii, Blank, BASE64, And, Or, AsciiToChar;
    EncodeKeeps(s, i, acc);
    var t := EncodeRec(s, i, acc);
    if i == |s| {
      assert done + "" == done;
    } else {
      hide EncodeRec, DecodeRec;
      if |s| - i <= 2 { EncodeGroup(s, i, acc); }
      assert s[i..][1..] == s[i + 1..];
      var none := 0 as char;
      NoneIsZero();
      if |s| - i > 2 {
        var v := Bits(CharToAscii(s[i]), CharToAscii(s[i + 1]), CharToAscii(s[i + 2]));
        EncodeStep(s, i, acc, done);
        var three := [Blank(s[i])] + ([Blank(s[i + 1])] + [Blank(s[i + 2])]);
        DecodeEncodeRec(s, i + 3, acc + Quad(v), done + three);
        BlankedThree(s, i);
        assert done + (three + Blanked(s[i + 3..])) == done + three + Blanked(s[i + 3..]);
      } else if |s| - i == 2 {
        var q := Quad(Bits(CharToAscii(s[i]), CharToAscii(s[i + 1]), 0))[..3];
        Appended(acc, q, t);
        DecodeGroup(t, |acc|, done, s[i], s[i + 1], none, 3);
        BlankedEnd(s, i);
      } else {
        var q := Quad(Bits(CharToAscii(s[i]), 0, 0))[..2];
        Appended(acc, q, t);
        DecodeGroup(t, |acc|, done, s[i], none, none, 2);
        BlankedEnd(s, i);
      }
    }
  }

  /** The code of a character outside the table. */
  lemma NoneIsZero()
    ensures CharToAscii(0 as char) == 0
  {
    FindBounds(ASCII, 0 as char);
  }

  lemma BlankedThree(s: string, i: nat)
    requires i + 3 <= |s|
    ensures Blanked(s[i..]) == [Blank(s[i])] + ([Blank(s[i + 1])] + [Blank(s[i + 2])]) + Blanked(s[i + 3..])
  {
    hide Blank;
    assert s[i..][1..] == s[i + 1..] && s[i + 1..][1..] == s[i + 2..] && s[i + 2..][1..] == s[i + 3..];
    assert Blanked(s[i + 1..]) == [Blank(s[i + 1])] + Blanked(s[i + 2..]);
    assert Blanked(s[i + 2..]) == [Blank(s[i + 2])] + Blanked(s[i + 3..]);
  }

  lemma BlankedEnd(s: string, i: nat)
    requires i < |s| <= i + 2
    ensures |s| - i == 1 ==> Blanked(s[i..]) == [Blank(s[i])]
    ensures |s| - i == 2 ==> Blanked(s[i..]) == [Blank(s[i])] + [Blank(s[i + 1])]
  {
    hide Blank;
    assert s[i..][1..] == s[i + 1..];
    assert Blanked(s[|s|..]) == "";
    assert |s| - i == 2 ==> s[i + 1..][1..] == s[|s|..] && Blanked(s[i + 1..]) == [Blank(s[i + 1])] + Blanked(s[|s|..]);
  }

  lemma {:induction false} BlankedSame(s: string)
    ensures Blanked(s) == s <==> Over(s, ASCII)
    decreases |s|
  {
    hide Find;
    if s != "" {
      BlankedSame(s[1..]);
      BlankInTable();
      assert s == [s[0]] + s[1..];
      assert Over(s, ASCII) <==> Find(ASCII, s[0]) >= 0 && Over(s[1..], ASCII) by {
        if Find(ASCII, s[0]) >= 0 && Over(s[1..], ASCII) {
          forall i | 0 <= i < |s| ensures Find(ASCII, s[i]) >= 0 { assert i > 0 ==> s[i] == s[1..][i - 1]; }
        } else if Find(ASCII, s[0]) >= 0 {
          var i :| 0 <= i < |s[1..]| && Find(ASCII, s[1..][i]) < 0;
          assert s[i + 1] == s[1..][i];
        }
      }
    }
  }

  lemma BlankInTable()
    ensures Find(ASCII, ' ') >= 0
  {
    TablesDistinct();
    assert ASCII[0] == ' ';
    FindAt(ASCII, 0);
  }

  /** Decoding an encoded text yields the text with a blank for each character outside the table, and so
      the text itself exactly when it has none. */
  lemma DecodeEncode(s: string)
    ensures Over(Encode(s), BASE64) && Decode(Encode(s)) == Blanked(s)
    ensures Decode(Encode(s)) == s <==> Over(s, ASCII)
  {
    hide Find, BASE64;
    DecodeEncodeRec(s, 0, "", "");
    assert s[0..] == s;
    assert "" + Blanked(s) == Blanked(s);
    BlankedSame(s);
  }

  // ----- Hexadecimal -----

  /** `hex_to_b64url_rec` */
  function HexToBase64Rec(hex: string, i: nat, acc: string): string
    requires Over(hex, HEX) && i <= |hex|
    decreases |hex| - i
  {
    if |hex| - i > 5 then
      var val := Or(Or(Or(Or(Or(Val(HEX, hex, i) * 1048576, Val(HEX, hex, i + 1) * 65536), Val(HEX, hex, i + 2) * 4096),
                          Val(HEX, hex, i + 3) * 256), Val(HEX, hex, i + 4) * 16), Val(HEX, hex, i + 5));
      var (c1, c2, c3, c4) := Digits64(val);
      HexToBase64Rec(hex, i + 6, acc + (c1 + (c2 + (c3 + c4))))
    else if |hex| - i == 4 then
      var (c1, c2, c3, _) := Digits64(Or(Or(Or(Val(HEX, hex, i) * 1048576, Val(HEX, hex, i + 1) * 65536), Val(HEX, hex, i + 2) * 4096),
                                         Val(HEX, hex, i + 3) * 256));
      acc + (c1 + (c2 + c3))
    else if |hex| - i == 2 then
      var (c1, c2, _, _) := Digits64(Or(Val(HEX, hex, i) * 1048576, Val(HEX, hex, i + 1) * 65536));
      acc + (c1 + c2)
    else acc
  }

  function HexToBase64(hex: string): string
    requires Over(hex, HEX)
  {
    HexToBase64Rec(hex, 0, "")
  }

  function HexPair(val: nat, high: nat): string
    requires high > 0
  {
    HexChar(And(val / (16 * high), 15)) + HexChar(And(val / high, 15))
  }

  /** `b64url_to_hex_rec` */
  function Base64ToHexRec(s: string, i: nat, acc: string): string
    requires Over(s, BASE64) && i <= |s|
    decreases |s| - i
  {
    if |s| - i > 3 then
      var val := Packed(s, i, 4);
      Base64ToHexRec(s, i + 4, acc + (HexPair(val, 65536) + (HexPair(val, 256) + HexPair(val, 1))))
    else if |s| - i == 3 then
      var val := Packed(s, i, 3);
      acc + (HexPair(val, 65536) + HexPair(val, 256))
    else if |s| - i == 2 then
      var val := Packed(s, i, 2);
      acc + HexPair(val, 65536)
    else acc
  }

  function Base64ToHex(s: string): string
    requires Over(s, BASE64)
  {
    Base64ToHexRec(s, 0, "")
  }

  /** Six hexadecimal digits put together. */
  lemma PackHex(a: nat, b: nat, c: nat, d: nat, e: nat, f: nat)
    requires a < 16 && b < 16 && c < 16 && d < 16 && e < 16 && f < 16
    ensures Or(a * 1048576, b * 65536) == (a * 16 + b) * 65536
    ensures Or(Or(Or(a * 1048576, b * 65536), c * 4096), d * 256) == (a * 16 + b) * 65536 + (c * 16 + d) * 256
    ensures Or(Or(Or(Or(Or(a * 1048576, b * 65536), c * 4096), d * 256), e * 16), f)
         == (a * 16 + b) * 65536 + (c * 16 + d) * 256 + (e * 16 + f)
  {
    hide Or;
    Powers();
    var s1 := a * 1048576 + b * 65536;
    var s2 := s1 + c * 4096;
    var s3 := s2 + d * 256;
    var s4 := s3 + e * 16;
    ModUnique(a * 1048576, 1048576, a, 0);
    OrDisjoint(a * 1048576, b * 65536, 20);
    ModUnique(s1, 65536, a * 16 + b, 0);
    OrDisjoint(s1, c * 4096, 16);
    ModUnique(s2, 4096, a * 256 + b * 16 + c, 0);
    OrDisjoint(s2, d * 256, 12);
    ModUnique(s3, 256, a * 4096 + b * 256 + c * 16 + d, 0);
    OrDisjoint(s3, e * 16, 8);
    ModUnique(s4, 16, a * 65536 + b * 4096 + c * 256 + d * 16 + e, 0);
    OrDisjoint(s4, f, 4);
  }

  /** A byte of two hexadecimal digits comes back as the digits. */
  lemma PairBack(v: nat, high: nat, x: char, y: char)
    requires high > 0 && Find(HEX, x) >= 0 && Find(HEX, y) >= 0
    requires v / high % 256 == Find(HEX, x) * 16 + Find(HEX, y)
    ensures HexPair(v, high) == [x] + [y]
  {
    hide Find, And, Sub, HexChar;
    DivDiv(v, high);
    NibblesBack(v / high, x, y);
  }

  lemma NibblesBack(w: nat, x: char, y: char)
    requires Find(HEX, x) >= 0 && Find(HEX, y) >= 0 && w % 256 == Find(HEX, x) * 16 + Find(HEX, y)
    ensures HexChar(And(w / 16, 15)) + HexChar(And(w, 15)) == [x] + [y]
  {
    hide Find, And, Sub;
    TablesDistinct();
    FindBounds(HEX, x);
    FindBounds(HEX, y);
    Nibbles(w, Find(HEX, x), Find(HEX, y));
    Mask(w);
    Mask(w / 16);
    DigitComesBack(HEX, Find(HEX, x));
    DigitComesBack(HEX, Find(HEX, y));
  }

  lemma Nibbles(w: nat, a: nat, b: nat)
    requires a < 16 && b < 16 && w % 256 == a * 16 + b
    ensures w % 16 == b && w / 16 % 16 == a
  {
    ModUnique(w, 16, w / 256 * 16 + a, b);
    ModUnique(w / 256 * 16 + a, 16, w / 256, a);
  }

  lemma DivDiv(v: nat, high: nat)
    requires high > 0
    ensures v / (16 * high) == v / high / 16
  {
    var w, r := v / high, v % high;
    var q, s := w / 16, w % 16;
    assert v == high * w + r;
    Distribute(high, q, s);
    ModUnique(v, 16 * high, q, high * s + r);
  }

  lemma Distribute(h: nat, q: nat, s: nat)
    requires s < 16
    ensures h * (16 * q + s) == 16 * h * q + h * s && h * s <= h * 15
  {
  }

  lemma HexVals(hex: string, i: nat)
    requires Over(hex, HEX) && i < |hex|
    ensures Val(HEX, hex, i) < 16
  {
    TablesDistinct();
    FindBounds(HEX, hex[i]);
  }

  function Byte(hex: string, i: nat): (b: nat)
    requires Over(hex, HEX) && i + 1 < |hex|
    ensures b < 256
  {
    HexVals(hex, i);
    HexVals(hex, i + 1);
    Val(HEX, hex, i) * 16 + Val(HEX, hex, i + 1)
  }

  lemma ByteIs(hex: string, i: nat)
    requires Over(hex, HEX) && i + 1 < |hex|
    ensures Byte(hex, i) == Find(HEX, hex[i]) * 16 + Find(HEX, hex[i + 1])
  {
  }

  lemma HexGroup(hex: string, i: nat, acc: string)
    requires Over(hex, HEX) && i < |hex|
    ensures |hex| - i > 5 ==>
      var v := Bits(Byte(hex, i), Byte(hex, i + 2), Byte(hex, i + 4));
      v < 16777216 && HexToBase64Rec(hex, i, acc) == HexToBase64Rec(hex, i + 6, acc + Quad(v))
    ensures |hex| - i == 4 ==>
      var v := Bits(Byte(hex, i), Byte(hex, i + 2), 0); v < 16777216 && HexToBase64Rec(hex, i, acc) == acc + Quad(v)[..3]
    ensures |hex| - i == 2 ==>
      var v := Bits(Byte(hex, i), 0, 0); v < 16777216 && HexToBase64Rec(hex, i, acc) == acc + Quad(v)[..2]
  {
    hide Find, And, Or, Digits64, Quad;
    forall k | i <= k < |hex| ensures Val(HEX, hex, k) < 16 { HexVals(hex, k); }
    if |hex| - i > 5 {
      PackHex(Val(HEX, hex, i), Val(HEX, hex, i + 1), Val(HEX, hex, i + 2), Val(HEX, hex, i + 3), Val(HEX, hex, i + 4), Val(HEX, hex, i + 5));
      var v := Bits(Byte(hex, i), Byte(hex, i + 2), Byte(hex, i + 4));
      Joined(v);
    } else if |hex| - i == 4 {
      PackHex(Val(HEX, hex, i), Val(HEX, hex, i + 1), Val(HEX, hex, i + 2), Val(HEX, hex, i + 3), 0, 0);
      var v := Bits(Byte(hex, i), Byte(hex, i + 2), 0);
      Joined(v);
    } else if |hex| - i == 2 {
      PackHex(Val(HEX, hex, i), Val(HEX, hex, i + 1), 0, 0, 0, 0);
      var v := Bits(Byte(hex, i), 0, 0);
      Joined(v);
    }
  }

  lemma {:induction false} HexKeeps(hex: string, i: nat, acc: string)
    requires Over(hex, HEX) && i <= |hex| && Over(acc, BASE64)
    ensures acc <= HexToBase64Rec(hex, i, acc) && Over(HexToBase64Rec(hex, i, acc), BASE64)
    decreases |hex| - i
  {
    hide Find, Quad, BASE64, HEX, Byte, Or, Digits64;
    if i < |hex| {
      HexGroup(hex, i, acc);
      if |hex| - i > 5 {
        hide HexToBase64Rec;
        var v := Bits(Byte(hex, i), Byte(hex, i + 2), Byte(hex, i + 4));
        QuadOver(v, 4);
        assert Quad(v)[..4] == Quad(v);
        HexKeeps(hex, i + 6, acc + Quad(v));
      } else if |hex| - i == 4 {
        QuadOver(Bits(Byte(hex, i), Byte(hex, i + 2), 0), 3);
      } else if |hex| - i == 2 {
        QuadOver(Bits(Byte(hex, i), 0, 0), 2);
      }
    }
  }

  /** A quad read back as hexadecimal digits. */
  lemma HexBack(t: string, k: nat, done: string, hex: string, i: nat, n: nat)
    requires Over(t, BASE64) && Over(hex, HEX) && 2 <= n <= 4 && i + 2 * n - 2 <= |hex|
    requires n < 4 ==> k + n == |t|
    requires var v := Bits(Byte(hex, i), if n > 2 then Byte(hex, i + 2) else 0, if n > 3 then Byte(hex, i + 4) else 0);
      v < 16777216 && Follows(t, k, Quad(v)[..n])
    ensures Base64ToHexRec(t, k, done) ==
      if n == 4 then Base64ToHexRec(t, k + 4, done + hex[i..i + 6]) else done + hex[i..i + 2 * n - 2]
  {
    hide Find, Packed, HexPair, BASE64, HEX, Byte, Quad;
    var x, y, z := Byte(hex, i), if n > 2 then Byte(hex, i + 2) else 0, if n > 3 then Byte(hex, i + 4) else 0;
    ReadBits(t, k, x, y, z, n);
    BytesBack(hex, i, x, y, z, n);
    if n == 4 {
      assert hex[i..i + 6] == ([hex[i]] + [hex[i + 1]]) + (([hex[i + 2]] + [hex[i + 3]]) + ([hex[i + 4]] + [hex[i + 5]]));
    } else if n == 3 {
      assert hex[i..i + 4] == ([hex[i]] + [hex[i + 1]]) + ([hex[i + 2]] + [hex[i + 3]]);
    } else {
      assert hex[i..i + 2] == [hex[i]] + [hex[i + 1]];
    }
  }

  /** The pairs of digits that make up a group. */
  lemma BytesBack(hex: string, i: nat, x: nat, y: nat, z: nat, n: nat)
    requires Over(hex, HEX) && 2 <= n <= 4 && i + 2 * n - 2 <= |hex| && x == Byte(hex, i) && y < 256 && z < 256
    requires (n > 2 ==> y == Byte(hex, i + 2)) && (n > 3 ==> z == Byte(hex, i + 4))
    ensures HexPair(Bits(x, y, z), 65536) == [hex[i]] + [hex[i + 1]]
    ensures n > 2 ==> HexPair(Bits(x, y, z), 256) == [hex[i + 2]] + [hex[i + 3]]
    ensures n > 3 ==> HexPair(Bits(x, y, z), 1) == [hex[i + 4]] + [hex[i + 5]]
  {
    hide Find, HexPair, HEX, Byte;
    Bytes(x, y, z);
    ByteIs(hex, i);
    PairBack(Bits(x, y, z), 65536, hex[i], hex[i + 1]);
    if n > 2 {
      ByteIs(hex, i + 2);
      PairBack(Bits(x, y, z), 256, hex[i + 2], hex[i + 3]);
    }
    if n > 3 {
      ByteIs(hex, i + 4);
      PairBack(Bits(x, y, z), 1, hex[i + 4], hex[i + 5]);
    }
  }

  /** How much of `n` digits survives: all of an even number, whole groups of six of an odd one. */
  function Surviving(n: nat): (k: nat)
    ensures k <= n
  {
    if n % 2 == 0 then n else n - n % 6
  }

  /** A whole group of six digits goes through both ways. */
  lemma HexStep(hex: string, i: nat, acc: string, done: string)
    requires Over(hex, HEX) && i + 6 <= |hex| && Over(acc, BASE64)
    ensures var v := Bits(Byte(hex, i), Byte(hex, i + 2), Byte(hex, i + 4)); var t := HexToBase64Rec(hex, i, acc);
      && v < 16777216 && Over(acc + Quad(v), BASE64) && Over(t, BASE64) && |acc| + 4 <= |t|
      && t == HexToBase64Rec(hex, i + 6, acc + Quad(v))
      && Base64ToHexRec(t, |acc|, done) == Base64ToHexRec(t, |acc| + 4, done + hex[i..i + 6])
  {
    hide Find, Quad, BASE64, HEX, Byte, Or, Digits64, HexPair, HexToBase64Rec, Base64ToHexRec;
    HexGroup(hex, i, acc);
    var t, v := HexToBase64Rec(hex, i, acc), Bits(Byte(hex, i), Byte(hex, i + 2), Byte(hex, i + 4));
    QuadOver(v, 4);
    assert Quad(v)[..4] == Quad(v);
    OverAppend(acc, Quad(v), BASE64);
    HexKeeps(hex, i + 6, acc + Quad(v));
    Appended(acc, Quad(v), t);
    HexBack(t, |acc|, done, hex, i, 4);
  }

  lemma {:induction false} HexComesBackRec(hex: string, i: nat, acc: string, done: string)
    requires Over(hex, HEX) && i <= |hex| && Over(acc, BASE64)
    ensures Over(HexToBase64Rec(hex, i, acc), BASE64) && |acc| <= |HexToBase64Rec(hex, i, acc)|
    ensures Base64ToHexRec(HexToBase64Rec(hex, i, acc), |acc|, done) == done + hex[i..i + Surviving(|hex| - i)]
    decreases |hex| - i
  {
    hide Find, Quad, BASE64, HEX, Byte, Or, Digits64, HexPair;
    HexKeeps(hex, i, acc);
    var t := HexToBase64Rec(hex, i, acc);
    if i < |hex| && |hex| - i <= 5 { HexGroup(hex, i, acc); }
    if |hex| - i > 5 {
      hide HexToBase64Rec, Base64ToHexRec;
      HexStep(hex, i, acc, done);
      var v := Bits(Byte(hex, i), Byte(hex, i + 2), Byte(hex, i + 4));
      HexComesBackRec(hex, i + 6, acc + Quad(v), done + hex[i..i + 6]);
      var n := Surviving(|hex| - i);
      assert n == 6 + Surviving(|hex| - i - 6);
      assert hex[i..i + n] == hex[i..i + 6] + hex[i + 6..i + n];
    } else if |hex| - i == 4 {
      hide HexToBase64Rec, Base64ToHexRec;
      Appended(acc, Quad(Bits(Byte(hex, i), Byte(hex, i + 2), 0))[..3], t);
      HexBack(t, |acc|, done, hex, i, 3);
    } else if |hex| - i == 2 {
      hide HexToBase64Rec, Base64ToHexRec;
      Appended(acc, Quad(Bits(Byte(hex, i), 0, 0))[..2], t);
      HexBack(t, |acc|, done, hex, i, 2);
    } else {
      assert Surviving(|hex| - i) == 0;
      assert done + hex[i..i] == done;
    }
  }

  lemma SurvivingAll(n: nat)
    ensures Surviving(n) == n <==> n % 2 == 0
  {
    if n % 6 == 0 {
      assert n == 2 * (3 * (n / 6));
      ModUnique(n, 2, 3 * (n / 6), 0);
    }
  }

  /** Hexadecimal digits come back through base64url exactly when their number is even. */
  lemma HexComesBack(hex: string)
    requires Over(hex, HEX)
    ensures Over(HexToBase64(hex), BASE64) && Base64ToHex(HexToBase64(hex)) == hex[..Surviving(|hex|)]
    ensures Base64ToHex(HexToBase64(hex)) == hex <==> |hex| % 2 == 0
  {
    hide Find, BASE64, HEX, HexToBase64Rec, Base64ToHexRec;
    HexComesBackRec(hex, 0, "", "");
    SurvivingAll(|hex|);
    assert "" + hex[0..Surviving(|hex|)] == hex[..Surviving(|hex|)];
    assert hex[..|hex|] == hex;
  }
}
