/** The parser and the printer of `src/runtime/cJSON.c` over whole values (RFC 8259). */
module JsonTree {
  import JsonString
  import opened Wrappers

  /** Numbers are integers: other numbers are not part of this model. */
  datatype Json =
    | Null | False | True
    | Number(value: int)
    | Text(text: seq<byte>)
    | Array(items: Items)
    | Object(fields: Fields)

  datatype Items = NoItems | Item(head: Json, tail: Items)

  datatype Fields = NoFields | Field(key: seq<byte>, val: Json, rest: Fields)

  /** `NotModelled` answers a number that is not an integer in range. */
  datatype Result<+T> = Ok(value: T, rest: seq<byte>) | Fail | NotModelled

  const NESTING_LIMIT: nat := 1000
  const INT_MAX: int := 0x7fff_ffff
  const INT_MIN: int := -0x8000_0000

  const NULL: seq<byte> := [110, 117, 108, 108]
  const FALSE: seq<byte> := [102, 97, 108, 115, 101]
  const TRUE: seq<byte> := [116, 114, 117, 101]
  const COMMA: byte := 44
  const COLON: byte := 58
  const MINUS: byte := 45
  const OPEN: byte := 91
  const CLOSE: byte := 93
  const OPEN_BRACE: byte := 123
  const CLOSE_BRACE: byte := 125
  const TAB: byte := 9
  const NEWLINE: byte := 10
  const SPACE: byte := 32

  // ----- Parsing -----

  /** `buffer_skip_whitespace`, which goes back one place when it has run into the end. */
  function Skip(s: seq<byte>): (r: seq<byte>)
    ensures |r| <= |s| && (r == [] <==> s == [])
  {
    if |s| > 1 && s[0] <= SPACE then Skip(s[1..]) else s
  }

  predicate IsDigit(b: byte) { 48 <= b <= 57 }

  predicate NumberByte(b: byte) { IsDigit(b) || b in {43, 45, 101, 69, 46} }

  function NumberRun(s: seq<byte>): (n: nat)
    ensures n <= |s|
  {
    if s != [] && NumberByte(s[0]) then 1 + NumberRun(s[1..]) else 0
  }

  predicate AllDigits(s: seq<byte>) {
    forall i | 0 <= i < |s| :: IsDigit(s[i])
  }

  function NatOf(digits: seq<byte>): nat
    requires AllDigits(digits)
  {
    if digits == [] then 0
    else
      assert IsDigit(digits[|digits| - 1]);
      10 * NatOf(digits[..|digits| - 1]) + (digits[|digits| - 1] - 48)
  }

  /** `parse_number` */
  function ParseNumber(s: seq<byte>): (r: Result<Json>)
    requires s != [] && (s[0] == MINUS || IsDigit(s[0]))
    ensures r.Ok? ==> |r.rest| < |s|
  {
    var n := NumberRun(s);
    var digits := if s[0] == MINUS then s[1..n] else s[..n];
    if digits == [] || !AllDigits(digits) then NotModelled
    else
      var size: int := NatOf(digits);
      var value := if s[0] == MINUS then -size else size;
      if INT_MIN <= value <= INT_MAX then Ok(Number(value), s[n..]) else NotModelled
  }

  predicate StartsWith(s: seq<byte>, word: seq<byte>) {
    |word| <= |s| && s[..|word|] == word
  }

  /** `parse_value` */
  function ParseValue(s: seq<byte>, depth: nat): (r: Result<Json>)
    ensures r.Ok? ==> |r.rest| < |s|
    decreases |s|, 1
  {
    if StartsWith(s, NULL) then Ok(Null, s[4..])
    else if StartsWith(s, FALSE) then Ok(False, s[5..])
    else if StartsWith(s, TRUE) then Ok(True, s[4..])
    else if s == [] then Fail
    else if s[0] == JsonString.QUOTE then
      match JsonString.Parse(s)
      case Some((text, rest)) => Ok(Text(text), rest)
      case None => Fail
    else if s[0] == MINUS || IsDigit(s[0]) then ParseNumber(s)
    else if s[0] == OPEN then ParseArray(s, depth)
    else if s[0] == OPEN_BRACE then ParseObject(s, depth)
    else Fail
  }

  function ParseArray(s: seq<byte>, depth: nat): (r: Result<Json>)
    requires s != [] && s[0] == OPEN
    ensures r.Ok? ==> |r.rest| < |s|
    decreases |s|, 0
  {
    if depth >= NESTING_LIMIT then Fail
    else
      var t := Skip(s[1..]);
      if t == [] then Fail
      else if t[0] == CLOSE then Ok(Array(NoItems), t[1..])
      else
        match ParseItems(t, depth + 1)
        case Ok(items, rest) => Ok(Array(items), rest)
        case Fail => Fail
        case NotModelled => NotModelled
  }

  /** The items from the place behind the bracket or a comma. */
  function ParseItems(s: seq<byte>, depth: nat): (r: Result<Items>)
    ensures r.Ok? ==> |r.rest| < |s|
    decreases |s|, 2
  {
    match ParseValue(Skip(s), depth)
    case Fail => Fail
    case NotModelled => NotModelled
    case Ok(head, rest) =>
      var t := Skip(rest);
      if t != [] && t[0] == COMMA then
        match ParseItems(t[1..], depth)
        case Ok(tail, after) => Ok(Item(head, tail), after)
        case Fail => Fail
        case NotModelled => NotModelled
      else if t != [] && t[0] == CLOSE then Ok(Item(head, NoItems), t[1..])
      else Fail
  }

  function ParseObject(s: seq<byte>, depth: nat): (r: Result<Json>)
    requires s != [] && s[0] == OPEN_BRACE
    ensures r.Ok? ==> |r.rest| < |s|
    decreases |s|, 0
  {
    if depth >= NESTING_LIMIT then Fail
    else
      var t := Skip(s[1..]);
      if t == [] then Fail
      else if t[0] == CLOSE_BRACE then Ok(Object(NoFields), t[1..])
      else
        match ParseFields(t, depth + 1)
        case Ok(fields, rest) => Ok(Object(fields), rest)
        case Fail => Fail
        case NotModelled => NotModelled
  }

  /** The fields from the place behind the brace or a comma. */
  function ParseFields(s: seq<byte>, depth: nat): (r: Result<Fields>)
    ensures r.Ok? ==> |r.rest| < |s|
    decreases |s|, 2
  {
    match JsonString.Parse(Skip(s))
    case None => Fail
    case Some((key, afterKey)) =>
      var t := Skip(afterKey);
      if t == [] || t[0] != COLON then Fail
      else
        match ParseValue(Skip(t[1..]), depth)
        case Fail => Fail
        case NotModelled => NotModelled
        case Ok(val, rest) =>
          var u := Skip(rest);
          if u != [] && u[0] == COMMA then
            match ParseFields(u[1..], depth)
            case Ok(fields, after) => Ok(Field(key, val, fields), after)
            case Fail => Fail
            case NotModelled => NotModelled
          else if u != [] && u[0] == CLOSE_BRACE then Ok(Field(key, val, NoFields), u[1..])
          else Fail
  }

  const BOM: seq<byte> := [0xEF, 0xBB, 0xBF]

  /** `cJSON_Parse`: the buffer holds the text and its terminator. */
  function Parse(text: seq<byte>): Result<Json> {
    var content := text + [0];
    ParseValue(Skip(if |content| > 4 && StartsWith(content, BOM) then content[3..] else content), 0)
  }

  // ----- Printing -----

  function Digits(n: nat): (s: seq<byte>)
    ensures s != [] && AllDigits(s) && NatOf(s) == n
  {
    var last := [48 + n % 10];
    if n < 10 then last
    else
      var s := Digits(n / 10) + last;
      assert s[..|s| - 1] == Digits(n / 10);
      s
  }

  function PrintNumber(n: int): (s: seq<byte>)
    ensures s != []
  {
    if n < 0 then [MINUS] + Digits(-n) else Digits(n)
  }

  function Tabs(n: nat): (t: seq<byte>)
    ensures |t| == n && forall i | 0 <= i < n :: t[i] == TAB
  {
    seq(n, _ => TAB)
  }

  /** How deep arrays and objects are nested. */
  function Height(v: Json): nat {
    match v
    case Array(items) => 1 + ItemsHeight(items)
    case Object(fields) => 1 + FieldsHeight(fields)
    case _ => 0
  }

  function ItemsHeight(items: Items): nat {
    match items
    case NoItems => 0
    case Item(head, tail) => if Height(head) > ItemsHeight(tail) then Height(head) else ItemsHeight(tail)
  }

  function FieldsHeight(fields: Fields): nat {
    match fields
    case NoFields => 0
    case Field(_, val, rest) => if Height(val) > FieldsHeight(rest) then Height(val) else FieldsHeight(rest)
  }

  /** `print_value`, formatted or not; no value where the nesting is too deep. */
  function Print(v: Json, format: bool, depth: nat): Option<seq<byte>>
    decreases v
  {
    match v
    case Null => Some(NULL)
    case False => Some(FALSE)
    case True => Some(TRUE)
    case Number(value) => Some(PrintNumber(value))
    case Text(text) => Some(JsonString.Print(text))
    case Array(items) =>
      if depth >= NESTING_LIMIT then None
      else
        (match PrintItems(items, format, depth + 1)
         case Some(inner) => Some([OPEN] + inner + [CLOSE])
         case None => None)
    case Object(fields) =>
      if depth >= NESTING_LIMIT then None
      else
        match PrintFields(fields, format, depth + 1)
        case Some(inner) => Some(Head(format) + inner + Foot(format, depth))
        case None => None
  }

  function Head(format: bool): seq<byte> {
    if format then [OPEN_BRACE, NEWLINE] else [OPEN_BRACE]
  }

  function Foot(format: bool, depth: nat): seq<byte> {
    (if format then Tabs(depth) else []) + [CLOSE_BRACE]
  }

  function PrintItems(items: Items, format: bool, depth: nat): Option<seq<byte>>
    decreases items
  {
    match items
    case NoItems => Some([])
    case Item(head, tail) =>
      match (Print(head, format, depth), PrintItems(tail, format, depth))
      case (Some(first), Some(more)) => Some(first + Between(tail, format) + more)
      case _ => None
  }

  function Between(tail: Items, format: bool): seq<byte> {
    if tail.NoItems? then [] else if format then [COMMA, SPACE] else [COMMA]
  }

  function PrintFields(fields: Fields, format: bool, depth: nat): Option<seq<byte>>
    decreases fields
  {
    match fields
    case NoFields => Some([])
    case Field(key, val, rest) =>
      match (Print(val, format, depth), PrintFields(rest, format, depth))
      case (Some(value), Some(more)) =>
        Some(Indent(format, depth) + (JsonString.Print(key) + (Colon(format) + (value + (After(rest, format) + more)))))
      case _ => None
  }

  function Indent(format: bool, depth: nat): seq<byte> {
    if format then Tabs(depth) else []
  }

  function Colon(format: bool): seq<byte> {
    if format then [COLON, TAB] else [COLON]
  }

  function After(rest: Fields, format: bool): seq<byte> {
    (if rest.Field? then [COMMA] else []) + if format then [NEWLINE] else []
  }

  // ----- Which values -----

  /** Integers in range, and C strings. */
  predicate Plain(v: Json) {
    match v
    case Number(value) => INT_MIN <= value <= INT_MAX
    case Text(text) => 0 !in text
    case Array(items) => PlainItems(items)
    case Object(fields) => PlainFields(fields)
    case _ => true
  }

  predicate PlainItems(items: Items) {
    match items
    case NoItems => true
    case Item(head, tail) => Plain(head) && PlainItems(tail)
  }

  predicate PlainFields(fields: Fields) {
    match fields
    case NoFields => true
    case Field(key, val, rest) => 0 !in key && Plain(val) && PlainFields(rest)
  }

  /** Printing succeeds exactly on values that are not nested too deep. */
  lemma {:induction false} PrintsUpToLimit(v: Json, format: bool, depth: nat)
    ensures Print(v, format, depth).Some? <==> Height(v) == 0 || depth + Height(v) <= NESTING_LIMIT
    decreases v
  {
    match v
    case Array(items) => ItemsPrint(items, format, depth + 1);
    case Object(fields) => FieldsPrint(fields, format, depth + 1);
    case _ =>
  }

  lemma {:induction false} ItemsPrint(items: Items, format: bool, depth: nat)
    ensures PrintItems(items, format, depth).Some? <==> ItemsHeight(items) == 0 || depth + ItemsHeight(items) <= NESTING_LIMIT
    decreases items
  {
    match items
    case NoItems =>
    case Item(head, tail) =>
      PrintsUpToLimit(head, format, depth);
      ItemsPrint(tail, format, depth);
  }

  lemma {:induction false} FieldsPrint(fields: Fields, format: bool, depth: nat)
    ensures PrintFields(fields, format, depth).Some? <==> FieldsHeight(fields) == 0 || depth + FieldsHeight(fields) <= NESTING_LIMIT
    decreases fields
  {
    match fields
    case NoFields =>
    case Field(_, val, rest) =>
      PrintsUpToLimit(val, format, depth);
      FieldsPrint(rest, format, depth);
  }

  // ----- Parsing what was printed -----

  /** What may follow a number. */
  predicate Delimits(rest: seq<byte>) {
    rest != [] && !NumberByte(rest[0])
  }

  lemma {:induction false} SkipBlank(blank: seq<byte>, s: seq<byte>)
    requires s != [] && s[0] > SPACE && forall i | 0 <= i < |blank| :: blank[i] <= SPACE
    ensures Skip(blank + s) == s
    decreases |blank|
  {
    if blank == [] {
      assert blank + s == s;
    } else {
      assert (blank + s)[1..] == blank[1..] + s;
      SkipBlank(blank[1..], s);
    }
  }

  lemma SkipNothing(s: seq<byte>)
    requires s != [] && s[0] > SPACE
    ensures Skip(s) == s
  {
  }

  lemma {:induction false} RunOfDigits(digits: seq<byte>, rest: seq<byte>)
    requires AllDigits(digits) && Delimits(rest)
    ensures NumberRun(digits + rest) == |digits|
    decreases |digits|
  {
    if digits == [] {
      assert digits + rest == rest;
    } else {
      assert (digits + rest)[1..] == digits[1..] + rest;
      RunOfDigits(digits[1..], rest);
    }
  }

  lemma NumberParses(n: int, rest: seq<byte>)
    requires INT_MIN <= n <= INT_MAX && Delimits(rest)
    ensures var s := PrintNumber(n) + rest; (s[0] == MINUS || IsDigit(s[0])) && ParseNumber(s) == Ok(Number(n), rest)
  {
    hide Digits, NatOf;
    var s := PrintNumber(n) + rest;
    var digits := Digits(if n < 0 then -n else n);
    RunOfDigits(digits, rest);
    if n < 0 {
      assert s == [MINUS] + (digits + rest) && s[1..] == digits + rest;
      assert s[1..NumberRun(s)] == digits && s[NumberRun(s)..] == rest;
    } else {
      assert s[..NumberRun(s)] == digits && s[NumberRun(s)..] == rest;
      assert s[0] == digits[0];
    }
  }

  lemma NumberValue(n: int, rest: seq<byte>, depth: nat)
    requires INT_MIN <= n <= INT_MAX && Delimits(rest)
    ensures ParseValue(PrintNumber(n) + rest, depth) == Ok(Number(n), rest)
  {
    hide ParseNumber, PrintNumber;
    NumberParses(n, rest);
    var s := PrintNumber(n) + rest;
    FirstByte(s, NULL);
    FirstByte(s, FALSE);
    FirstByte(s, TRUE);
  }

  lemma FirstByte(s: seq<byte>, word: seq<byte>)
    requires s != [] && word != [] && s[0] != word[0]
    ensures !StartsWith(s, word)
  {
    assert |word| <= |s| ==> s[..|word|][0] == s[0];
  }

  lemma WordValue(v: Json, format: bool, depth: nat, rest: seq<byte>)
    requires v.Null? || v.False? || v.True?
    ensures ParseValue(Print(v, format, depth).value + rest, depth) == Ok(v, rest)
  {
    hide ParseArray, ParseObject, ParseNumber;
    var word := Print(v, format, depth).value;
    var s := word + rest;
    assert s[..|word|] == word && s[|word|..] == rest;
    if v.False? || v.True? { FirstByte(s, NULL); }
    if v.True? { FirstByte(s, FALSE); }
  }

  lemma TextValue(text: seq<byte>, rest: seq<byte>, depth: nat)
    ensures ParseValue(JsonString.Print(text) + rest, depth) == Ok(Text(text), rest)
  {
    hide JsonString.Parse, JsonString.Escape, ParseArray, ParseObject, ParseNumber;
    JsonString.ParsePrint(text, rest);
    var s := JsonString.Print(text) + rest;
    assert s[0] == JsonString.QUOTE;
    FirstByte(s, NULL);
    FirstByte(s, FALSE);
    FirstByte(s, TRUE);
  }

  /** Printed text starts with no blank, and no digit is cut short by what is printed behind it. */
  lemma PrintedHead(v: Json, format: bool, depth: nat)
    requires Print(v, format, depth).Some?
    ensures var text := Print(v, format, depth).value;
      text != [] && text[0] > SPACE && text[0] != CLOSE && text[0] != CLOSE_BRACE && text[0] != 0xEF
  {
    hide JsonString.Escape, Digits;
    match v
    case Number(n) => DigitsHead(if n < 0 then -n else n);
    case _ =>
  }

  lemma DigitsHead(n: nat)
    ensures IsDigit(Digits(n)[0])
  {
  }

  /** A printed value is parsed back, whatever delimits it. */
  lemma {:induction false} ParsePrinted(v: Json, format: bool, depth: nat, rest: seq<byte>)
    requires Print(v, format, depth).Some? && Plain(v) && Delimits(rest)
    ensures ParseValue(Print(v, format, depth).value + rest, depth) == Ok(v, rest)
    decreases v, 1
  {
    match v
    case Number(n) => NumberValue(n, rest, depth);
    case Text(text) => TextValue(text, rest, depth);
    case Array(items) => ArrayValue(items, format, depth, rest);
    case Object(fields) => ObjectValue(fields, format, depth, rest);
    case _ => WordValue(v, format, depth, rest);
  }

  lemma {:induction false} ArrayValue(items: Items, format: bool, depth: nat, rest: seq<byte>)
    requires Print(Array(items), format, depth).Some? && PlainItems(items)
    ensures ParseValue(Print(Array(items), format, depth).value + rest, depth) == Ok(Array(items), rest)
    decreases items, 2
  {
    hide ParseObject, ParseNumber, ParseItems, PrintItems, Skip, JsonString.Parse;
    var inner := PrintItems(items, format, depth + 1).value;
    var tail := inner + ([CLOSE] + rest);
    var s := Print(Array(items), format, depth).value + rest;
    assert s == [OPEN] + tail;
    assert s[1..] == tail;
    FirstByte(s, NULL);
    FirstByte(s, FALSE);
    FirstByte(s, TRUE);
    assert ParseValue(s, depth) == ParseArray(s, depth);
    if items.NoItems? {
      NoItemsText(format, depth + 1);
      assert tail == [CLOSE] + rest;
      SkipNothing(tail);
      assert tail[1..] == rest;
    } else {
      ItemsHead(items, format, depth + 1);
      SkipNothing(tail);
      ItemsValue(items, format, depth + 1, rest);
    }
  }

  lemma NoItemsText(format: bool, depth: nat)
    ensures PrintItems(NoItems, format, depth) == Some([])
  {
  }

  lemma ItemsHead(items: Items, format: bool, depth: nat)
    requires items.Item? && PrintItems(items, format, depth).Some?
    ensures var text := PrintItems(items, format, depth).value; text != [] && text[0] > SPACE && text[0] != CLOSE
  {
    hide Print;
    PrintedHead(items.head, format, depth);
  }

  lemma {:induction false} ItemsValue(items: Items, format: bool, depth: nat, rest: seq<byte>)
    requires items.Item? && PrintItems(items, format, depth).Some? && PlainItems(items)
    ensures ParseItems(PrintItems(items, format, depth).value + ([CLOSE] + rest), depth) == Ok(items, rest)
    decreases items, 1
  {
    hide ParseValue, Print, Skip;
    var Item(head, tail) := items;
    var first, more := Print(head, format, depth).value, PrintItems(tail, format, depth).value;
    var behind := Between(tail, format) + (more + ([CLOSE] + rest));
    var s := PrintItems(items, format, depth).value + ([CLOSE] + rest);
    assert s == first + behind;
    PrintedHead(head, format, depth);
    SkipNothing(s);
    if tail.NoItems? {
      assert behind == [CLOSE] + rest;
      ParsePrinted(head, format, depth, behind);
      SkipNothing(behind);
      assert behind[1..] == rest;
    } else {
      var next := (if format then [SPACE] else []) + (more + ([CLOSE] + rest));
      assert behind == [COMMA] + next;
      ParsePrinted(head, format, depth, behind);
      SkipNothing(behind);
      assert behind[1..] == next;
      ItemsHead(tail, format, depth);
      ItemsValue(tail, format, depth, rest);
      ItemsSkip(if format then [SPACE] else [], more + ([CLOSE] + rest), depth);
    }
  }

  /** Blanks before the first item make no difference. */
  lemma ItemsSkip(blank: seq<byte>, s: seq<byte>, depth: nat)
    requires s != [] && s[0] > SPACE && forall i | 0 <= i < |blank| :: blank[i] <= SPACE
    ensures ParseItems(blank + s, depth) == ParseItems(s, depth)
  {
    hide ParseValue, Skip;
    SkipBlank(blank, s);
    SkipNothing(s);
  }

  lemma FieldsSkip(blank: seq<byte>, s: seq<byte>, depth: nat)
    requires s != [] && s[0] > SPACE && forall i | 0 <= i < |blank| :: blank[i] <= SPACE
    ensures ParseFields(blank + s, depth) == ParseFields(s, depth)
  {
    hide ParseValue, Skip, JsonString.Parse;
    SkipBlank(blank, s);
    SkipNothing(s);
  }

  lemma {:induction false} ObjectValue(fields: Fields, format: bool, depth: nat, rest: seq<byte>)
    requires Print(Object(fields), format, depth).Some? && PlainFields(fields)
    ensures ParseValue(Print(Object(fields), format, depth).value + rest, depth) == Ok(Object(fields), rest)
    decreases fields, 2
  {
    hide ParseArray, ParseNumber, ParseFields, PrintFields, Skip, JsonString.Parse, Tabs;
    var inner := PrintFields(fields, format, depth + 1).value;
    var tail := inner + (Foot(format, depth) + rest);
    var blank: seq<byte> := if format then [NEWLINE] else [];
    var s := Print(Object(fields), format, depth).value + rest;
    assert s == [OPEN_BRACE] + (blank + tail);
    assert s[1..] == blank + tail;
    FirstByte(s, NULL);
    FirstByte(s, FALSE);
    FirstByte(s, TRUE);
    assert ParseValue(s, depth) == ParseObject(s, depth);
    if fields.NoFields? {
      NoFieldsText(format, depth + 1);
      assert blank + tail == blank + (Foot(format, depth) + rest);
      FootSkip(blank, Foot(format, depth), rest);
    } else {
      ObjectSkip(fields, format, depth, blank, Foot(format, depth) + rest);
      FieldsValue(fields, format, depth + 1, Foot(format, depth), rest);
    }
  }

  /** The blanks before the first field. */
  lemma ObjectSkip(fields: Fields, format: bool, depth: nat, blank: seq<byte>, rest: seq<byte>)
    requires fields.Field? && PrintFields(fields, format, depth + 1).Some? && forall i | 0 <= i < |blank| :: blank[i] <= SPACE
    ensures var tail := PrintFields(fields, format, depth + 1).value + rest; var t := Skip(blank + tail);
      t != [] && t[0] == JsonString.QUOTE && ParseFields(t, depth + 1) == ParseFields(tail, depth + 1)
  {
    hide PrintFields, ParseFields, Skip, Tabs;
    FieldsHead(fields, format, depth + 1);
    var inner, tabs := PrintFields(fields, format, depth + 1).value, Indent(format, depth + 1);
    var core := inner[|tabs|..] + rest;
    assert inner + rest == tabs + core && blank + (inner + rest) == (blank + tabs) + core;
    SkipBlank(blank + tabs, core);
    FieldsSkip(tabs, core, depth + 1);
  }

  lemma NoFieldsText(format: bool, depth: nat)
    ensures PrintFields(NoFields, format, depth) == Some([])
  {
  }

  lemma FieldsHead(fields: Fields, format: bool, depth: nat)
    requires fields.Field? && PrintFields(fields, format, depth).Some?
    ensures var text := PrintFields(fields, format, depth).value; var tabs := Indent(format, depth);
      |tabs| < |text| && text[..|tabs|] == tabs && text[|tabs|] == JsonString.QUOTE
  {
    hide Print, Tabs, JsonString.Escape;
  }

  /** The end of an object: blanks and its brace. */
  predicate IsFoot(foot: seq<byte>) {
    foot != [] && foot[|foot| - 1] == CLOSE_BRACE && forall i | 0 <= i < |foot| - 1 :: foot[i] <= SPACE
  }

  lemma {:induction false} FieldsValue(fields: Fields, format: bool, depth: nat, foot: seq<byte>, rest: seq<byte>)
    requires fields.Field? && PrintFields(fields, format, depth).Some? && PlainFields(fields) && IsFoot(foot)
    ensures ParseFields(PrintFields(fields, format, depth).value + (foot + rest), depth) == Ok(fields, rest)
    decreases fields, 1
  {
    hide ParseFields, ParseValue, Print, Skip, JsonString.Parse, JsonString.Print, Tabs;
    var Field(key, val, others) := fields;
    var value, more := Print(val, format, depth).value, PrintFields(others, format, depth).value;
    var end := After(others, format) + (more + (foot + rest));
    var afterKey := Colon(format) + (value + end);
    var start := JsonString.Print(key) + afterKey;
    FieldOrder(Indent(format, depth), JsonString.Print(key), Colon(format), value, After(others, format), more, foot + rest);
    KeyHead(key, afterKey);
    FieldsSkip(Indent(format, depth), start, depth);
    JsonString.ParsePrint(key, afterKey);
    EndDelimits(others, format, more, foot, rest, depth);
    ParsePrinted(val, format, depth, end);
    ValueSkip(val, format, depth, end);
    FieldParts(start, key, afterKey, val, end, depth);
    EndSkip(others, format, more, foot, rest, depth);
    if others.Field? {
      FieldsValue(others, format, depth, foot, rest);
    }
  }

  /** What follows a field: a comma and the other fields, or the end of the object. */
  lemma EndSkip(others: Fields, format: bool, more: seq<byte>, foot: seq<byte>, rest: seq<byte>, depth: nat)
    requires IsFoot(foot) && PrintFields(others, format, depth) == Some(more)
    ensures var end := After(others, format) + (more + (foot + rest)); var u := Skip(end);
      && u != []
      && (others.NoFields? ==> u[0] == CLOSE_BRACE && u[1..] == rest)
      && (others.Field? ==> u[0] == COMMA && ParseFields(u[1..], depth) == ParseFields(more + (foot + rest), depth))
  {
    hide ParseFields, Skip, IsFoot, Indent, Tabs;
    var lines: seq<byte> := if format then [NEWLINE] else [];
    if others.NoFields? {
      FootSkip(lines, foot, rest);
      assert After(others, format) == lines;
      EndOrder(lines, more, foot + rest);
    } else {
      assert After(others, format) == [COMMA] + lines;
      EndOrder(lines, more, foot + rest);
      SkipNothing(After(others, format) + (more + (foot + rest)));
      NextField(others, format, depth, lines, foot + rest);
    }
  }

  lemma EndOrder(lines: seq<byte>, more: seq<byte>, rest: seq<byte>)
    ensures more == [] ==> lines + (more + rest) == lines + rest
    ensures [COMMA] + lines + (more + rest) == [COMMA] + (lines + (more + rest))
    ensures ([COMMA] + lines + (more + rest))[0] == COMMA && ([COMMA] + lines + (more + rest))[1..] == lines + (more + rest)
  {
  }

  /** Line breaks before the next field make no difference. */
  lemma NextField(fields: Fields, format: bool, depth: nat, lines: seq<byte>, rest: seq<byte>)
    requires fields.Field? && PrintFields(fields, format, depth).Some? && forall i | 0 <= i < |lines| :: lines[i] <= SPACE
    ensures var next := PrintFields(fields, format, depth).value + rest; ParseFields(lines + next, depth) == ParseFields(next, depth)
  {
    hide PrintFields, ParseFields, Tabs;
    FieldsHead(fields, format, depth);
    var more, tabs := PrintFields(fields, format, depth).value, Indent(format, depth);
    var core := more[|tabs|..] + rest;
    assert more + rest == tabs + core && lines + (more + rest) == (lines + tabs) + core;
    FieldsSkip(tabs, core, depth);
    FieldsSkip(lines + tabs, core, depth);
  }

  /** The value is found behind the colon. */
  lemma ValueSkip(val: Json, format: bool, depth: nat, end: seq<byte>)
    requires Print(val, format, depth).Some?
    ensures var t := Colon(format) + (Print(val, format, depth).value + end);
      Skip(t) == t && t[0] == COLON && Skip(t[1..]) == Print(val, format, depth).value + end
  {
    hide Print;
    var value := Print(val, format, depth).value;
    var blank: seq<byte> := if format then [TAB] else [];
    var t := Colon(format) + (value + end);
    assert t[1..] == blank + (value + end);
    PrintedHead(val, format, depth);
    SkipBlank(blank, value + end);
    SkipNothing(t);
  }

  /** One field, and what is left to parse behind it. */
  lemma FieldParts(s: seq<byte>, key: seq<byte>, afterKey: seq<byte>, val: Json, end: seq<byte>, depth: nat)
    requires s != [] && s[0] > SPACE && JsonString.Parse(s) == Some((key, afterKey))
    requires Skip(afterKey) == afterKey && afterKey != [] && afterKey[0] == COLON
    requires ParseValue(Skip(afterKey[1..]), depth) == Ok(val, end)
    ensures ParseFields(s, depth) ==
      var u := Skip(end);
      if u != [] && u[0] == COMMA then
        match ParseFields(u[1..], depth)
        case Ok(fields, after) => Ok(Field(key, val, fields), after)
        case Fail => Fail
        case NotModelled => NotModelled
      else if u != [] && u[0] == CLOSE_BRACE then Ok(Field(key, val, NoFields), u[1..])
      else Fail
  {
    hide ParseValue, Skip, JsonString.Parse;
    SkipNothing(s);
  }

  lemma FieldOrder(a: seq<byte>, b: seq<byte>, c: seq<byte>, d: seq<byte>, e: seq<byte>, f: seq<byte>, rest: seq<byte>)
    ensures a + (b + (c + (d + (e + f)))) + rest == a + (b + (c + (d + (e + (f + rest)))))
  {
  }

  lemma KeyHead(key: seq<byte>, rest: seq<byte>)
    ensures var s := JsonString.Print(key) + rest; s != [] && s[0] > SPACE
  {
    hide JsonString.Escape;
  }

  lemma FootSkip(lines: seq<byte>, foot: seq<byte>, rest: seq<byte>)
    requires IsFoot(foot) && forall i | 0 <= i < |lines| :: lines[i] <= SPACE
    ensures Skip(lines + (foot + rest)) == [CLOSE_BRACE] + rest && ([CLOSE_BRACE] + rest)[1..] == rest
  {
    var blanks := foot[..|foot| - 1];
    assert lines + (foot + rest) == (lines + blanks) + ([CLOSE_BRACE] + rest);
    SkipBlank(lines + blanks, [CLOSE_BRACE] + rest);
  }

  lemma EndDelimits(others: Fields, format: bool, more: seq<byte>, foot: seq<byte>, rest: seq<byte>, depth: nat)
    requires IsFoot(foot) && PrintFields(others, format, depth) == Some(more)
    ensures Delimits(After(others, format) + (more + (foot + rest)))
  {
    if others.NoFields? && !format {
      assert more == [];
      assert (After(others, format) + (more + (foot + rest)))[0] == foot[0];
    }
  }

  /** Parsing the printed text of a value yields the value, formatted or not. */
  lemma ParsePrint(v: Json, format: bool)
    requires Plain(v) && Print(v, format, 0).Some?
    ensures Parse(Print(v, format, 0).value) == Ok(v, [0])
  {
    hide ParseValue, Print;
    var content := Print(v, format, 0).value + [0];
    PrintedHead(v, format, 0);
    FirstByte(content, BOM);
    SkipNothing(content);
    ParsePrinted(v, format, 0, [0]);
  }
}
