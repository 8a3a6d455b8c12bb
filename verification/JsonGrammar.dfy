/** The texts that the parser of `src/runtime/cJSON.c` reads, as a grammar of their own (RFC 8259, with
    what the code lets pass beyond it). */
module JsonGrammar {
  import JsonString
  import JsonText
  import opened JsonTree
  import opened Wrappers

  // ----- The grammar -----

  function Ascii(s: string): (bytes: seq<byte>)
    requires forall i | 0 <= i < |s| :: s[i] < '\U{80}'
    ensures |bytes| == |s| && forall i | 0 <= i < |s| :: bytes[i] == s[i] as int
  {
    seq(|s|, i requires 0 <= i < |s| => s[i] as int)
  }

  /** What counts as white space: every byte up to the blank. */
  predicate Gap(s: seq<byte>) {
    forall i | 0 <= i < |s| :: s[i] <= 32
  }

  /** `t` behind white space. */
  ghost predicate Behind(s: seq<byte>, t: seq<byte>) {
    exists gap :: Gap(gap) && s == gap + t
  }

  /** The sign `c` behind white space, and `rest` behind it. */
  ghost predicate Sign(s: seq<byte>, c: char, rest: seq<byte>)
    requires c < '\U{80}'
  {
    Behind(s, [c as int] + rest)
  }

  predicate Numeral(s: seq<byte>) {
    s != [] && forall i | 0 <= i < |s| :: '0' as int <= s[i] <= '9' as int
  }

  function Power(n: nat): nat {
    if n == 0 then 1 else 10 * Power(n - 1)
  }

  /** The number that decimal digits denote, each by its place. */
  function Decimal(s: seq<byte>): nat
    requires forall i | 0 <= i < |s| :: '0' as int <= s[i] <= '9' as int
  {
    if s == [] then 0 else (s[0] as int - '0' as int) * Power(|s| - 1) + Decimal(s[1..])
  }

  /** What cannot follow an integer: more of a number. */
  predicate NumberEnds(rest: seq<byte>) {
    rest != [] ==> !('0' as int <= rest[0] <= '9' as int) && rest[0] !in ['+' as int, '-' as int, '.' as int, 'e' as int, 'E' as int]
  }

  ghost predicate IsNumber(s: seq<byte>, n: int, rest: seq<byte>) {
    exists digits :: Numeral(digits) && NumberEnds(rest)
      && ((s == digits + rest && n == Decimal(digits) <= 0x7FFF_FFFF)
          || (s == Ascii("-") + digits + rest && n == 0 - Decimal(digits) >= -0x8000_0000))
  }

  /** `s` is a text of the value `v`, inside `depth` arrays and objects, and then `rest`. */
  ghost predicate IsValue(s: seq<byte>, v: Json, rest: seq<byte>, depth: nat)
    decreases v, 0
  {
    match v
    case Null => s == Ascii("null") + rest
    case False => s == Ascii("false") + rest
    case True => s == Ascii("true") + rest
    case Number(n) => IsNumber(s, n, rest)
    case Text(text) => exists body :: JsonText.IsString(s, body, text, rest)
    case Array(items) => s != [] && s[0] == '[' as int && depth < 1000 && IsItems(s[1..], items, rest, depth + 1, true)
    case Object(fields) => s != [] && s[0] == '{' as int && depth < 1000 && IsFields(s[1..], fields, rest, depth + 1, true)
  }

  /** Items with commas between them, and the closing bracket; there may be none behind the opening one. */
  ghost predicate IsItems(s: seq<byte>, items: Items, rest: seq<byte>, depth: nat, first: bool)
    decreases items, 0
  {
    match items
    case NoItems => first && Sign(s, ']', rest)
    case Item(head, tail) => exists t, after :: Behind(s, t) && IsValue(t, head, after, depth) && ItemsGoOn(after, tail, rest, depth)
  }

  ghost predicate ItemsGoOn(s: seq<byte>, tail: Items, rest: seq<byte>, depth: nat)
    decreases tail, 1
  {
    if tail.NoItems? then Sign(s, ']', rest) else exists next :: Sign(s, ',', next) && IsItems(next, tail, rest, depth, false)
  }

  /** Fields with commas between them, and the closing brace. */
  ghost predicate IsFields(s: seq<byte>, fields: Fields, rest: seq<byte>, depth: nat, first: bool)
    decreases fields, 0
  {
    match fields
    case NoFields => first && Sign(s, '}', rest)
    case Field(key, val, tail) =>
      exists t, body, afterKey, behindColon, u, after ::
        && Behind(s, t) && JsonText.IsString(t, body, key, afterKey)
        && Sign(afterKey, ':', behindColon) && Behind(behindColon, u) && IsValue(u, val, after, depth)
        && FieldsGoOn(after, tail, rest, depth)
  }

  ghost predicate FieldsGoOn(s: seq<byte>, tail: Fields, rest: seq<byte>, depth: nat)
    decreases tail, 1
  {
    if tail.NoFields? then Sign(s, '}', rest) else exists next :: Sign(s, ',', next) && IsFields(next, tail, rest, depth, false)
  }

  // ----- White space and signs -----

  lemma {:induction false} SkipSound(s: seq<byte>)
    ensures Behind(s, Skip(s))
    ensures |Skip(s)| > 1 ==> Skip(s)[0] > 32
    decreases |s|
  {
    if |s| > 1 && s[0] <= 32 {
      SkipSound(s[1..]);
      var gap :| Gap(gap) && s[1..] == gap + Skip(s[1..]);
      assert s == ([s[0]] + gap) + Skip(s);
      assert Gap([s[0]] + gap);
    } else {
      assert Gap([]) && s == [] + s;
    }
  }

  lemma {:induction false} SkipGap(gap: seq<byte>, t: seq<byte>)
    requires Gap(gap) && t != [] && t[0] > 32
    ensures Skip(gap + t) == t
    decreases |gap|
  {
    if gap == [] {
      assert gap + t == t;
    } else {
      assert (gap + t)[1..] == gap[1..] + t;
      SkipGap(gap[1..], t);
    }
  }

  lemma SkipBehind(s: seq<byte>, t: seq<byte>)
    requires Behind(s, t) && t != [] && t[0] > 32
    ensures Skip(s) == t
  {
    var gap :| Gap(gap) && s == gap + t;
    SkipGap(gap, t);
  }

  /** A sign is found exactly where the parser, having skipped, sees it. */
  lemma SignExact(s: seq<byte>, c: char, rest: seq<byte>)
    requires ' ' < c < '\U{80}'
    ensures Sign(s, c, rest) <==> Skip(s) != [] && Skip(s)[0] == c as int && Skip(s)[1..] == rest
  {
    if Sign(s, c, rest) {
      SkipBehind(s, [c as int] + rest);
    }
    if Skip(s) != [] && Skip(s)[0] == c as int && Skip(s)[1..] == rest {
      SkipSound(s);
      assert Skip(s) == [c as int] + rest;
    }
  }

  // ----- Numbers -----

  lemma {:induction false} DecimalSnoc(s: seq<byte>, b: byte)
    requires forall i | 0 <= i < |s| :: '0' as int <= s[i] <= '9' as int
    requires '0' as int <= b <= '9' as int
    ensures Decimal(s + [b]) == 10 * Decimal(s) + (b as int - '0' as int)
    decreases |s|
  {
    if s == [] {
      assert s + [b] == [b] && [b][1..] == [];
      assert Power(0) == 1;
    } else {
      DecimalSnoc(s[1..], b);
      assert (s + [b])[1..] == s[1..] + [b];
      assert Power(|s|) == 10 * Power(|s| - 1);
      TenTimes(s[0] as int - '0' as int, Power(|s| - 1));
    }
  }

  lemma TenTimes(d: int, p: nat)
    ensures d * (10 * p) == 10 * (d * p)
  {
  }

  lemma {:induction false} NatOfDecimal(s: seq<byte>)
    requires AllDigits(s)
    ensures NatOf(s) == Decimal(s)
    decreases |s|
  {
    if s != [] {
      var last := |s| - 1;
      NatOfDecimal(s[..last]);
      assert IsDigit(s[last]);
      DecimalSnoc(s[..last], s[last]);
      assert s[..last] + [s[last]] == s;
    }
  }

  lemma {:induction false} NumberRunSound(s: seq<byte>)
    ensures var n := NumberRun(s); (forall i | 0 <= i < n :: NumberByte(s[i])) && (n < |s| ==> !NumberByte(s[n]))
    decreases |s|
  {
    if s != [] && NumberByte(s[0]) { NumberRunSound(s[1..]); }
  }

  lemma {:induction false} NumberRunEnds(w: seq<byte>, rest: seq<byte>)
    requires NumberEnds(rest) && forall i | 0 <= i < |w| :: NumberByte(w[i])
    ensures NumberRun(w + rest) == |w|
    decreases |w|
  {
    if w == [] {
      assert w + rest == rest;
    } else {
      assert (w + rest)[1..] == w[1..] + rest;
      NumberRunEnds(w[1..], rest);
    }
  }

  lemma SameDigits(s: seq<byte>)
    ensures Numeral(s) <==> s != [] && AllDigits(s)
  {
    if Numeral(s) { forall i | 0 <= i < |s| ensures IsDigit(s[i]) {} }
    if AllDigits(s) { forall i | 0 <= i < |s| ensures '0' as int <= s[i] <= '9' as int { assert IsDigit(s[i]); } }
  }

  lemma NumberSound(s: seq<byte>)
    requires s != [] && (s[0] == MINUS || IsDigit(s[0])) && ParseNumber(s).Ok?
    ensures ParseNumber(s).value.Number? && IsNumber(s, ParseNumber(s).value.value, ParseNumber(s).rest)
  {
    var n := NumberRun(s);
    NumberRunSound(s);
    var rest := s[n..];
    var digits := if s[0] == MINUS then s[1..n] else s[..n];
    SameDigits(digits);
    NatOfDecimal(digits);
    if s[0] == MINUS {
      assert s == Ascii("-") + digits + rest;
    } else {
      assert s == digits + rest;
    }
  }

  lemma PositiveRead(digits: seq<byte>, rest: seq<byte>)
    requires Numeral(digits) && NumberEnds(rest) && Decimal(digits) <= 0x7FFF_FFFF
    ensures IsDigit((digits + rest)[0]) && ParseNumber(digits + rest) == Ok(Number(Decimal(digits)), rest)
  {
    hide NumberRun, Decimal, NatOf;
    var s := digits + rest;
    SameDigits(digits);
    NatOfDecimal(digits);
    DigitsAreNumber(digits);
    NumberRunEnds(digits, rest);
    assert s[0] == digits[0] && IsDigit(digits[0]) && s[..|digits|] == digits && s[|digits|..] == rest;
  }

  lemma DigitsAreNumber(digits: seq<byte>)
    requires AllDigits(digits)
    ensures forall i | 0 <= i < |digits| :: NumberByte(digits[i])
  {
    forall i | 0 <= i < |digits| ensures NumberByte(digits[i]) { assert IsDigit(digits[i]); }
  }

  lemma NegativeRead(digits: seq<byte>, rest: seq<byte>)
    requires Numeral(digits) && NumberEnds(rest) && Decimal(digits) <= 0x8000_0000
    ensures (Ascii("-") + digits + rest)[0] == MINUS && ParseNumber(Ascii("-") + digits + rest) == Ok(Number(0 - Decimal(digits)), rest)
  {
    hide NumberRun, Decimal, NatOf;
    var word := Ascii("-") + digits;
    var s := word + rest;
    SameDigits(digits);
    NatOfDecimal(digits);
    DigitsAreNumber(digits);
    forall i | 0 <= i < |word| ensures NumberByte(word[i]) { if i > 0 { assert word[i] == digits[i - 1]; } }
    NumberRunEnds(word, rest);
    assert s[1..|word|] == digits && s[|word|..] == rest;
  }

  lemma NumberComplete(s: seq<byte>, n: int, rest: seq<byte>)
    requires IsNumber(s, n, rest)
    ensures s != [] && (s[0] == MINUS || IsDigit(s[0])) && ParseNumber(s) == Ok(Number(n), rest)
  {
    hide ParseNumber, Decimal;
    var digits :| Numeral(digits) && NumberEnds(rest)
      && ((s == digits + rest && n == Decimal(digits) <= 0x7FFF_FFFF)
          || (s == Ascii("-") + digits + rest && n == 0 - Decimal(digits) >= -0x8000_0000));
    if s == digits + rest && n == Decimal(digits) <= 0x7FFF_FFFF {
      PositiveRead(digits, rest);
    } else {
      NegativeRead(digits, rest);
    }
  }

  // ----- The parser reads exactly the grammar -----

  lemma Words()
    ensures Ascii("null") == NULL && Ascii("false") == FALSE && Ascii("true") == TRUE
  {
  }

  /** A value begins with no white space and no closing sign. */
  lemma ValueBegins(s: seq<byte>, v: Json, rest: seq<byte>, depth: nat)
    requires IsValue(s, v, rest, depth)
    ensures s != [] && s[0] > 32 && s[0] != ']' as int && s[0] != '}' as int
  {
    match v
    case Null => assert s[0] == Ascii("null")[0];
    case False => assert s[0] == Ascii("false")[0];
    case True => assert s[0] == Ascii("true")[0];
    case Number(n) => NumberComplete(s, n, rest);
    case Text(text) => var body :| JsonText.IsString(s, body, text, rest); assert s[0] == JsonString.QUOTE;
    case Array(_) =>
    case Object(_) =>
  }

  /** What follows a value is shorter, and so is a skipped text no longer. */
  lemma BehindShorter(s: seq<byte>, t: seq<byte>)
    requires Behind(s, t)
    ensures |t| <= |s|
  {
  }

  lemma {:induction false} ParseSound(s: seq<byte>, depth: nat)
    requires ParseValue(s, depth).Ok?
    ensures IsValue(s, ParseValue(s, depth).value, ParseValue(s, depth).rest, depth)
    decreases |s|, 1
  {
    hide ParseArray, ParseObject, ParseNumber, IsNumber, JsonString.Parse, JsonText.IsString, IsItems, IsFields;
    Words();
    if StartsWith(s, NULL) {
      assert s == NULL + s[4..];
    } else if StartsWith(s, FALSE) {
      assert s == FALSE + s[5..];
    } else if StartsWith(s, TRUE) {
      assert s == TRUE + s[4..];
    } else if s[0] == JsonString.QUOTE {
      var (text, rest) := JsonString.Parse(s).value;
      JsonText.ParseExact(s, text, rest);
    } else if s[0] == MINUS || IsDigit(s[0]) {
      NumberSound(s);
    } else if s[0] == OPEN {
      ArraySound(s, depth);
    } else {
      ObjectSound(s, depth);
    }
  }

  lemma {:induction false} ArraySound(s: seq<byte>, depth: nat)
    requires s != [] && s[0] == OPEN && ParseArray(s, depth).Ok?
    ensures IsValue(s, ParseArray(s, depth).value, ParseArray(s, depth).rest, depth)
    decreases |s|, 0
  {
    hide ParseItems, IsItems;
    var t := Skip(s[1..]);
    if t[0] == CLOSE {
      SignExact(s[1..], ']', t[1..]);
      NoItemsClose(s[1..], t[1..], depth + 1);
    } else {
      ItemsSound(t, depth + 1);
      ItemsBehind(s[1..], t, ParseItems(t, depth + 1).value, ParseItems(t, depth + 1).rest, depth + 1);
    }
  }

  lemma NoItemsClose(s: seq<byte>, rest: seq<byte>, depth: nat)
    requires Sign(s, ']', rest)
    ensures IsItems(s, NoItems, rest, depth, true)
  {
  }

  /** White space in front of items makes no difference. */
  lemma ItemsBehind(s: seq<byte>, t: seq<byte>, items: Items, rest: seq<byte>, depth: nat)
    requires t == Skip(s) && items.Item? && IsItems(t, items, rest, depth, false)
    ensures IsItems(s, items, rest, depth, true)
  {
    hide IsValue, ItemsGoOn;
    var u, after :| Behind(t, u) && IsValue(u, items.head, after, depth) && ItemsGoOn(after, items.tail, rest, depth);
    SkipSound(s);
    BehindBehind(s, t, u);
  }

  lemma BehindBehind(s: seq<byte>, t: seq<byte>, u: seq<byte>)
    requires Behind(s, t) && Behind(t, u)
    ensures Behind(s, u)
  {
    var a :| Gap(a) && s == a + t;
    var b :| Gap(b) && t == b + u;
    assert s == (a + b) + u && Gap(a + b);
  }

  lemma {:induction false} ItemsSound(s: seq<byte>, depth: nat)
    requires ParseItems(s, depth).Ok?
    ensures ParseItems(s, depth).value.Item?
    ensures IsItems(s, ParseItems(s, depth).value, ParseItems(s, depth).rest, depth, false)
    decreases |s|, 2
  {
    hide ParseValue, IsValue;
    SkipSound(s);
    var t := Skip(s);
    ParseSound(t, depth);
    var (head, after) := (ParseValue(t, depth).value, ParseValue(t, depth).rest);
    var u := Skip(after);
    var rest := ParseItems(s, depth).rest;
    if u[0] == COMMA {
      ItemsSound(u[1..], depth);
      SignExact(after, ',', u[1..]);
      assert ItemsGoOn(after, ParseItems(s, depth).value.tail, rest, depth);
    } else {
      SignExact(after, ']', u[1..]);
    }
    assert Behind(s, t) && IsValue(t, head, after, depth);
  }

  lemma {:induction false} ObjectSound(s: seq<byte>, depth: nat)
    requires s != [] && s[0] == OPEN_BRACE && ParseObject(s, depth).Ok?
    ensures IsValue(s, ParseObject(s, depth).value, ParseObject(s, depth).rest, depth)
    decreases |s|, 0
  {
    hide ParseFields, IsFields;
    var t := Skip(s[1..]);
    if t[0] == CLOSE_BRACE {
      SignExact(s[1..], '}', t[1..]);
      NoFieldsClose(s[1..], t[1..], depth + 1);
    } else {
      FieldsSound(t, depth + 1);
      FieldsBehind(s[1..], t, ParseFields(t, depth + 1).value, ParseFields(t, depth + 1).rest, depth + 1);
    }
  }

  lemma NoFieldsClose(s: seq<byte>, rest: seq<byte>, depth: nat)
    requires Sign(s, '}', rest)
    ensures IsFields(s, NoFields, rest, depth, true)
  {
  }

  lemma FieldsBehind(s: seq<byte>, t: seq<byte>, fields: Fields, rest: seq<byte>, depth: nat)
    requires t == Skip(s) && fields.Field? && IsFields(t, fields, rest, depth, false)
    ensures IsFields(s, fields, rest, depth, true)
  {
    hide IsValue, FieldsGoOn, JsonText.IsString;
    var v, body, afterKey, behindColon, u, after :|
      Behind(t, v) && JsonText.IsString(v, body, fields.key, afterKey)
      && Sign(afterKey, ':', behindColon) && Behind(behindColon, u) && IsValue(u, fields.val, after, depth)
      && FieldsGoOn(after, fields.rest, rest, depth);
    SkipSound(s);
    BehindBehind(s, t, v);
  }

  lemma {:induction false} FieldsSound(s: seq<byte>, depth: nat)
    requires ParseFields(s, depth).Ok?
    ensures ParseFields(s, depth).value.Field?
    ensures IsFields(s, ParseFields(s, depth).value, ParseFields(s, depth).rest, depth, false)
    decreases |s|, 2
  {
    hide ParseValue, IsValue, JsonString.Parse, JsonText.IsString;
    SkipSound(s);
    var t := Skip(s);
    var (key, afterKey) := JsonString.Parse(t).value;
    JsonText.ParseExact(t, key, afterKey);
    var body :| JsonText.IsString(t, body, key, afterKey);
    var colon := Skip(afterKey);
    SignExact(afterKey, ':', colon[1..]);
    SkipSound(colon[1..]);
    var u := Skip(colon[1..]);
    ParseSound(u, depth);
    var (val, after) := (ParseValue(u, depth).value, ParseValue(u, depth).rest);
    var end := Skip(after);
    var rest := ParseFields(s, depth).rest;
    if end[0] == COMMA {
      FieldsSound(end[1..], depth);
      SignExact(after, ',', end[1..]);
      assert FieldsGoOn(after, ParseFields(s, depth).value.rest, rest, depth);
    } else {
      SignExact(after, '}', end[1..]);
    }
    assert Behind(s, t) && Sign(afterKey, ':', colon[1..]) && Behind(colon[1..], u) && IsValue(u, val, after, depth);
  }

  lemma {:induction false} ParseComplete(s: seq<byte>, v: Json, rest: seq<byte>, depth: nat)
    requires IsValue(s, v, rest, depth)
    ensures ParseValue(s, depth) == Ok(v, rest)
    decreases v, 0
  {
    hide ParseArray, ParseObject, ParseNumber, IsNumber, JsonString.Parse, JsonText.IsString, IsItems, IsFields;
    Words();
    match v
    case Null => assert s[..4] == NULL && s[4..] == rest;
    case False => assert s[0] == FALSE[0] && s[..5] == FALSE && s[5..] == rest; NotWord(s, NULL);
    case True => assert s[0] == TRUE[0] && s[..4] == TRUE && s[4..] == rest; NotWord(s, NULL); NotWord(s, FALSE);
    case Number(n) =>
      NumberComplete(s, n, rest);
      NotWord(s, NULL); NotWord(s, FALSE); NotWord(s, TRUE);
    case Text(text) =>
      JsonText.ParseExact(s, text, rest);
      var body :| JsonText.IsString(s, body, text, rest);
      StringBegins(s, body, text, rest);
      NotWord(s, NULL); NotWord(s, FALSE); NotWord(s, TRUE);
    case Array(items) =>
      ArrayComplete(s, items, rest, depth);
      NotWord(s, NULL); NotWord(s, FALSE); NotWord(s, TRUE);
    case Object(fields) =>
      ObjectComplete(s, fields, rest, depth);
      NotWord(s, NULL); NotWord(s, FALSE); NotWord(s, TRUE);
  }

  lemma StringBegins(s: seq<byte>, body: seq<byte>, text: seq<byte>, rest: seq<byte>)
    requires JsonText.IsString(s, body, text, rest)
    ensures s != [] && s[0] == JsonString.QUOTE
  {
  }

  lemma NotWord(s: seq<byte>, word: seq<byte>)
    requires s != [] && word != [] && s[0] != word[0]
    ensures !StartsWith(s, word)
  {
  }

  lemma {:induction false} ArrayComplete(s: seq<byte>, items: Items, rest: seq<byte>, depth: nat)
    requires IsValue(s, Array(items), rest, depth)
    ensures ParseArray(s, depth) == Ok(Array(items), rest)
    decreases items, 1
  {
    hide IsItems, ParseItems;
    ItemsComplete(s[1..], items, rest, depth + 1, true);
    var t := Skip(s[1..]);
    if items.Item? {
      ItemsBegin(s[1..], items, rest, depth + 1);
      SkipAgain(s[1..], depth + 1);
    }
  }

  /** The items behind the opening bracket begin with a value. */
  lemma ItemsBegin(s: seq<byte>, items: Items, rest: seq<byte>, depth: nat)
    requires items.Item? && IsItems(s, items, rest, depth, true)
    ensures Skip(s) != [] && Skip(s)[0] > 32 && Skip(s)[0] != CLOSE
  {
    hide ItemsGoOn;
    var t, after :| Behind(s, t) && IsValue(t, items.head, after, depth) && ItemsGoOn(after, items.tail, rest, depth);
    ValueBegins(t, items.head, after, depth);
    SkipBehind(s, t);
  }

  lemma SkipAgain(s: seq<byte>, depth: nat)
    requires Skip(s) != [] && Skip(s)[0] > 32
    ensures ParseItems(Skip(s), depth) == ParseItems(s, depth) && ParseFields(Skip(s), depth) == ParseFields(s, depth)
  {
    hide ParseValue, JsonString.Parse;
    assert Skip(Skip(s)) == Skip(s);
  }

  lemma {:induction false} ItemsComplete(s: seq<byte>, items: Items, rest: seq<byte>, depth: nat, first: bool)
    requires IsItems(s, items, rest, depth, first)
    ensures items.NoItems? ==> Skip(s) != [] && Skip(s)[0] == CLOSE && Skip(s)[1..] == rest
    ensures items.Item? ==> ParseItems(s, depth) == Ok(items, rest)
    decreases items, 0
  {
    hide IsValue, ParseValue;
    match items
    case NoItems => SignExact(s, ']', rest);
    case Item(head, tail) =>
      var t, after :| Behind(s, t) && IsValue(t, head, after, depth) && ItemsGoOn(after, tail, rest, depth);
      ValueBegins(t, head, after, depth);
      SkipBehind(s, t);
      ParseComplete(t, head, after, depth);
      if tail.NoItems? {
        SignExact(after, ']', rest);
      } else {
        var next :| Sign(after, ',', next) && IsItems(next, tail, rest, depth, false);
        SignExact(after, ',', next);
        ItemsComplete(next, tail, rest, depth, false);
      }
  }

  lemma {:induction false} ObjectComplete(s: seq<byte>, fields: Fields, rest: seq<byte>, depth: nat)
    requires IsValue(s, Object(fields), rest, depth)
    ensures ParseObject(s, depth) == Ok(Object(fields), rest)
    decreases fields, 1
  {
    hide IsFields, ParseFields;
    FieldsComplete(s[1..], fields, rest, depth + 1, true);
    var t := Skip(s[1..]);
    if fields.Field? {
      FieldsBegin(s[1..], fields, rest, depth + 1);
      SkipAgain(s[1..], depth + 1);
    }
  }

  lemma FieldsBegin(s: seq<byte>, fields: Fields, rest: seq<byte>, depth: nat)
    requires fields.Field? && IsFields(s, fields, rest, depth, true)
    ensures Skip(s) != [] && Skip(s)[0] > 32 && Skip(s)[0] != CLOSE_BRACE
  {
    hide FieldsGoOn, IsValue, JsonText.IsString;
    var t, body, afterKey, behindColon, u, after :|
      Behind(s, t) && JsonText.IsString(t, body, fields.key, afterKey)
      && Sign(afterKey, ':', behindColon) && Behind(behindColon, u) && IsValue(u, fields.val, after, depth)
      && FieldsGoOn(after, fields.rest, rest, depth);
    StringBegins(t, body, fields.key, afterKey);
    SkipBehind(s, t);
  }

  lemma {:induction false} FieldsComplete(s: seq<byte>, fields: Fields, rest: seq<byte>, depth: nat, first: bool)
    requires IsFields(s, fields, rest, depth, first)
    ensures fields.NoFields? ==> Skip(s) != [] && Skip(s)[0] == CLOSE_BRACE && Skip(s)[1..] == rest
    ensures fields.Field? ==> ParseFields(s, depth) == Ok(fields, rest)
    decreases fields, 0
  {
    hide IsValue, ParseValue, JsonText.IsString, JsonString.Parse;
    match fields
    case NoFields => SignExact(s, '}', rest);
    case Field(key, val, tail) =>
      var t, body, afterKey, behindColon, u, after :|
        Behind(s, t) && JsonText.IsString(t, body, key, afterKey)
        && Sign(afterKey, ':', behindColon) && Behind(behindColon, u) && IsValue(u, val, after, depth)
        && FieldsGoOn(after, tail, rest, depth);
      StringBegins(t, body, key, afterKey);
      SkipBehind(s, t);
      JsonText.ParseExact(t, key, afterKey);
      SignExact(afterKey, ':', behindColon);
      ValueBegins(u, val, after, depth);
      SkipBehind(behindColon, u);
      ParseComplete(u, val, after, depth);
      if tail.NoFields? {
        SignExact(after, '}', rest);
      } else {
        var next :| Sign(after, ',', next) && IsFields(next, tail, rest, depth, false);
        SignExact(after, ',', next);
        FieldsComplete(next, tail, rest, depth, false);
      }
  }

  /** The parser yields a value if and only if the grammar has it as a text of that value. */
  lemma ValueExact(s: seq<byte>, v: Json, rest: seq<byte>, depth: nat)
    ensures ParseValue(s, depth) == Ok(v, rest) <==> IsValue(s, v, rest, depth)
  {
    hide ParseValue, IsValue;
    if ParseValue(s, depth) == Ok(v, rest) { ParseSound(s, depth); }
    if IsValue(s, v, rest, depth) { ParseComplete(s, v, rest, depth); }
  }

  /** A whole text: a byte order mark may stand first, and white space before the value. */
  lemma ParseExact(text: seq<byte>, v: Json, rest: seq<byte>)
    ensures Parse(text) == Ok(v, rest)
            <==> var content := text + [0];
                 exists t :: Behind(if |content| > 4 && content[..3] == [0xEF, 0xBB, 0xBF] then content[3..] else content, t)
                   && IsValue(t, v, rest, 0)
  {
    hide ParseValue, IsValue, Skip;
    var content := text + [0];
    var behind := if |content| > 4 && content[..3] == [0xEF, 0xBB, 0xBF] then content[3..] else content;
    assert StartsWith(content, BOM) <==> |content| >= 3 && content[..3] == [0xEF, 0xBB, 0xBF];
    ValueExact(Skip(behind), v, rest, 0);
    SkipSound(behind);
    forall t | Behind(behind, t) && IsValue(t, v, rest, 0) ensures Skip(behind) == t {
      ValueBegins(t, v, rest, 0);
      SkipBehind(behind, t);
    }
  }
}
