/** The parse buffer and the print buffer of `src/runtime/cJSON.c`, updated in place. */
module JsonBuffers {
  import JsonString
  import opened JsonTree
  import opened Wrappers

  /** A parsing function has succeeded, failed, or met a number outside the model. */
  datatype Parsed<+T> = Yes(value: T) | No | Unmodelled

  predicate Agrees<T(==)>(p: Parsed<T>, r: Result<T>, rest: seq<byte>) {
    match r
    case Ok(value, after) => p == Yes(value) && rest == after
    case Fail => p == No
    case NotModelled => p == Unmodelled
  }

  function Append(items: Items, v: Json): Items {
    match items
    case NoItems => Item(v, NoItems)
    case Item(head, tail) => Item(head, Append(tail, v))
  }

  function Concat(items: Items, more: Items): Items {
    match items
    case NoItems => more
    case Item(head, tail) => Item(head, Concat(tail, more))
  }

  /** The items read so far, and what parsing the rest yields. */
  function Then(items: Items, r: Result<Items>): Result<Items> {
    if r.Ok? then Ok(Concat(items, r.value), r.rest) else r
  }

  lemma {:induction false} AppendConcat(items: Items, v: Json, more: Items)
    ensures Concat(Append(items, v), more) == Concat(items, Item(v, more))
    decreases items
  {
    if items.Item? {
      AppendConcat(items.tail, v, more);
    }
  }

  lemma {:induction false} ConcatNone(items: Items)
    ensures Concat(items, NoItems) == items
    decreases items
  {
    if items.Item? {
      ConcatNone(items.tail);
    }
  }

  /** What is parsed once an item is. */
  function AfterItem(items: Items, r: Result<Json>, depth: nat): Result<Items> {
    match r
    case Fail => Fail
    case NotModelled => NotModelled
    case Ok(head, rest) =>
      var t := Skip(rest);
      if t != [] && t[0] == COMMA then Then(Append(items, head), ParseItems(t[1..], depth))
      else if t != [] && t[0] == CLOSE then Ok(Append(items, head), t[1..])
      else Fail
  }

  /** One more item moves from the rest to what was read. */
  lemma ItemStep(items: Items, s: seq<byte>, depth: nat)
    ensures Then(items, ParseItems(s, depth)) == AfterItem(items, ParseValue(Skip(s), depth), depth)
  {
    hide ParseValue, Skip;
    var r := ParseValue(Skip(s), depth);
    if r.Ok? {
      var t := Skip(r.rest);
      AppendConcat(items, r.value, NoItems);
      ConcatNone(Append(items, r.value));
      if t != [] && t[0] == COMMA && ParseItems(t[1..], depth).Ok? {
        AppendConcat(items, r.value, ParseItems(t[1..], depth).value);
      }
    }
  }

  function AppendField(fields: Fields, key: seq<byte>, v: Json): Fields {
    match fields
    case NoFields => Field(key, v, NoFields)
    case Field(k, val, rest) => Field(k, val, AppendField(rest, key, v))
  }

  function ConcatFields(fields: Fields, more: Fields): Fields {
    match fields
    case NoFields => more
    case Field(k, val, rest) => Field(k, val, ConcatFields(rest, more))
  }

  function ThenFields(fields: Fields, r: Result<Fields>): Result<Fields> {
    if r.Ok? then Ok(ConcatFields(fields, r.value), r.rest) else r
  }

  lemma {:induction false} AppendConcatFields(fields: Fields, key: seq<byte>, v: Json, more: Fields)
    ensures ConcatFields(AppendField(fields, key, v), more) == ConcatFields(fields, Field(key, v, more))
    decreases fields
  {
    if fields.Field? {
      AppendConcatFields(fields.rest, key, v, more);
    }
  }

  lemma {:induction false} ConcatNoFields(fields: Fields)
    ensures ConcatFields(fields, NoFields) == fields
    decreases fields
  {
    if fields.Field? {
      ConcatNoFields(fields.rest);
    }
  }

  /** A key, a colon and a value. */
  function ReadField(s: seq<byte>, depth: nat): Result<(seq<byte>, Json)> {
    match JsonString.Parse(Skip(s))
    case None => Fail
    case Some((key, afterKey)) =>
      var t := Skip(afterKey);
      if t == [] || t[0] != COLON then Fail
      else
        match ParseValue(Skip(t[1..]), depth)
        case Fail => Fail
        case NotModelled => NotModelled
        case Ok(val, rest) => Ok((key, val), rest)
  }

  function AfterField(fields: Fields, r: Result<(seq<byte>, Json)>, depth: nat): Result<Fields> {
    match r
    case Fail => Fail
    case NotModelled => NotModelled
    case Ok((key, val), rest) =>
      var u := Skip(rest);
      if u != [] && u[0] == COMMA then ThenFields(AppendField(fields, key, val), ParseFields(u[1..], depth))
      else if u != [] && u[0] == CLOSE_BRACE then Ok(AppendField(fields, key, val), u[1..])
      else Fail
  }

  /** One more field moves from the rest to what was read. */
  lemma FieldStep(fields: Fields, s: seq<byte>, depth: nat)
    ensures ThenFields(fields, ParseFields(s, depth)) == AfterField(fields, ReadField(s, depth), depth)
  {
    hide ParseValue, Skip, JsonString.Parse;
    var r := ReadField(s, depth);
    if r.Ok? {
      var (key, val) := r.value;
      var u := Skip(r.rest);
      AppendConcatFields(fields, key, val, NoFields);
      ConcatNoFields(AppendField(fields, key, val));
      if u != [] && u[0] == COMMA && ParseFields(u[1..], depth).Ok? {
        AppendConcatFields(fields, key, val, ParseFields(u[1..], depth).value);
      }
    }
  }

  class ParseBuffer {
    const content: seq<byte>
    var offset: nat
    var depth: nat

    constructor (content: seq<byte>)
      ensures this.content == content && offset == 0 && depth == 0
    {
      this.content := content;
      offset, depth := 0, 0;
    }

    ghost predicate Valid()
      reads this
    {
      offset <= |content|
    }

    ghost function Rest(): seq<byte>
      reads this
      requires Valid()
    {
      content[offset..]
    }

    predicate At(b: byte)
      reads this
    {
      offset < |content| && content[offset] == b
    }

    /** `buffer_skip_whitespace` */
    method SkipWhitespace()
      requires Valid()
      modifies this`offset
      ensures Valid() && Rest() == Skip(old(Rest())) && offset >= old(offset)
    {
      if offset >= |content| { return; }
      ghost var start := Rest();
      while offset < |content| && content[offset] <= SPACE
        invariant old(offset) <= offset <= |content|
        invariant offset < |content| ==> Skip(content[offset..]) == Skip(start)
        invariant offset == |content| ==> offset > old(offset) && Skip(start) == content[offset - 1..]
      {
        assert content[offset..][1..] == content[offset + 1..];
        offset := offset + 1;
      }
      if offset == |content| {
        offset := offset - 1;
      }
    }

    method ParseString() returns (r: Parsed<seq<byte>>)
      requires Valid()
      modifies this`offset
      ensures Valid() && offset >= old(offset)
      ensures match JsonString.Parse(old(Rest())) case Some((text, rest)) => r == Yes(text) && Rest() == rest && offset > old(offset) case None => r == No
    {
      if offset >= |content| { return No; }
      var s := content[offset..];
      var parsed := JsonString.ParseString(s);
      match parsed
      case None => return No;
      case Some((text, rest)) =>
        Suffix(s, text, rest);
        offset := |content| - |rest|;
        return Yes(text);
    }

    /** `parse_value` */
    method ParseItem() returns (r: Parsed<Json>)
      requires Valid()
      modifies this
      ensures Valid() && Agrees(r, ParseValue(old(Rest()), old(depth)), Rest())
      ensures r.Yes? ==> depth == old(depth) && offset > old(offset)
      decreases |content| - offset, 3
    {
      hide ParseArray, ParseObject, ParseNumber, JsonString.Parse;
      ghost var s := Rest();
      if offset + 4 <= |content| && content[offset..offset + 4] == NULL {
        offset := offset + 4;
        return Yes(Null);
      }
      if offset + 5 <= |content| && content[offset..offset + 5] == FALSE {
        assert s[..4] == content[offset..offset + 4];
        offset := offset + 5;
        return Yes(False);
      }
      assert |s| >= 4 ==> s[..4] == content[offset..offset + 4];
      assert |s| >= 5 ==> s[..5] == content[offset..offset + 5];
      if offset + 4 <= |content| && content[offset..offset + 4] == TRUE {
        offset := offset + 4;
        return Yes(True);
      }
      if At(JsonString.QUOTE) {
        var text := ParseString();
        return if text.Yes? then Yes(Text(text.value)) else No;
      }
      if offset < |content| && (content[offset] == MINUS || IsDigit(content[offset])) {
        r := ParseInteger();
      } else if At(OPEN) {
        r := ParseList();
      } else if At(OPEN_BRACE) {
        r := ParseRecord();
      } else {
        r := No;
      }
    }

    /** `parse_number` */
    method ParseInteger() returns (r: Parsed<Json>)
      requires Valid() && offset < |content| && (content[offset] == MINUS || IsDigit(content[offset]))
      modifies this`offset
      ensures Valid() && Agrees(r, ParseNumber(old(Rest())), Rest())
      ensures r.Yes? ==> offset > old(offset)
    {
      ghost var s := Rest();
      var i := 0;
      while offset + i < |content| && NumberByte(content[offset + i])
        invariant offset + i <= |content| && NumberRun(s) == i + NumberRun(content[offset + i..])
      {
        assert content[offset + i..][1..] == content[offset + i + 1..];
        i := i + 1;
      }
      var number := content[offset..offset + i];
      assert number == s[..i] && content[offset + i..] == s[i..];
      assert s[0] == MINUS && i > 0 ==> number[1..] == s[1..i];
      var negative := content[offset] == MINUS;
      var digits := if negative then number[1..] else number;
      if digits == [] || !AllDigits(digits) { return Unmodelled; }
      var size: int := NatOf(digits);
      var value := if negative then -size else size;
      if value < INT_MIN || INT_MAX < value { return Unmodelled; }
      offset := offset + i;
      return Yes(Number(value));
    }

    /** `parse_array` */
    method ParseList() returns (r: Parsed<Json>)
      requires Valid() && At(OPEN)
      modifies this
      ensures Valid() && Agrees(r, ParseArray(old(Rest()), old(depth)), Rest())
      ensures r.Yes? ==> depth == old(depth) && offset > old(offset)
      decreases |content| - offset, 2
    {
      hide ParseValue, ParseItems, Skip;
      if depth >= NESTING_LIMIT { return No; }
      depth := depth + 1;
      ghost var s, d := Rest(), depth;
      offset := offset + 1;
      assert Rest() == s[1..];
      SkipWhitespace();
      ghost var t := Rest();
      if At(CLOSE) {
        depth := depth - 1;
        offset := offset + 1;
        assert Rest() == t[1..];
        return Yes(Array(NoItems));
      }
      if offset >= |content| {
        offset := offset - 1;
        return No;
      }
      offset := offset - 1;
      assert content[offset + 1..] == t;
      var items := ParseListItems();
      if items.No? { return No; }
      if items.Unmodelled? { return Unmodelled; }
      depth := depth - 1;
      return Yes(Array(items.value));
    }

    /** The loop of `parse_array`, from the place in front of the first item to behind the bracket. */
    method ParseListItems() returns (r: Parsed<Items>)
      requires offset < |content|
      modifies this
      ensures Valid() && Agrees(r, ParseItems(old(content[offset + 1..]), old(depth)), Rest())
      ensures r.Yes? ==> depth == old(depth) && offset > old(offset)
      decreases |content| - offset, 0
    {
      hide ParseValue, ParseItems, Skip;
      var items := NoItems;
      ghost var start := content[offset + 1..];
      ThenNone(ParseItems(start, depth));
      while true
        invariant old(offset) <= offset < |content| && depth == old(depth)
        invariant ParseItems(start, depth) == Then(items, ParseItems(content[offset + 1..], depth))
        decreases |content| - offset
      {
        ItemStep(items, content[offset + 1..], depth);
        offset := offset + 1;
        SkipWhitespace();
        var v := ParseItem();
        if v.No? { return No; }
        if v.Unmodelled? { return Unmodelled; }
        SkipWhitespace();
        items := Append(items, v.value);
        if !At(COMMA) { break; }
        assert Rest()[1..] == content[offset + 1..];
      }
      if !At(CLOSE) { return No; }
      assert Rest()[1..] == content[offset + 1..];
      offset := offset + 1;
      return Yes(items);
    }

    /** `parse_object` */
    method ParseRecord() returns (r: Parsed<Json>)
      requires Valid() && At(OPEN_BRACE)
      modifies this
      ensures Valid() && Agrees(r, ParseObject(old(Rest()), old(depth)), Rest())
      ensures r.Yes? ==> depth == old(depth) && offset > old(offset)
      decreases |content| - offset, 2
    {
      hide ParseValue, ParseFields, Skip, JsonString.Parse;
      if depth >= NESTING_LIMIT { return No; }
      depth := depth + 1;
      ghost var s, d := Rest(), depth;
      offset := offset + 1;
      assert Rest() == s[1..];
      SkipWhitespace();
      ghost var t := Rest();
      if At(CLOSE_BRACE) {
        depth := depth - 1;
        offset := offset + 1;
        assert Rest() == t[1..];
        return Yes(Object(NoFields));
      }
      if offset >= |content| {
        offset := offset - 1;
        return No;
      }
      offset := offset - 1;
      assert content[offset + 1..] == t;
      var fields := ParseRecordFields();
      if fields.No? { return No; }
      if fields.Unmodelled? { return Unmodelled; }
      depth := depth - 1;
      return Yes(Object(fields.value));
    }

    /** The loop of `parse_object`, from the place in front of the first field to behind the brace. */
    method ParseRecordFields() returns (r: Parsed<Fields>)
      requires offset < |content|
      modifies this
      ensures Valid() && Agrees(r, ParseFields(old(content[offset + 1..]), old(depth)), Rest())
      ensures r.Yes? ==> depth == old(depth) && offset > old(offset)
      decreases |content| - offset, 1
    {
      hide ParseFields, ReadField, Skip;
      var fields := NoFields;
      ghost var start := content[offset + 1..];
      ThenNoFields(ParseFields(start, depth));
      while true
        invariant old(offset) <= offset < |content| && depth == old(depth)
        invariant ParseFields(start, depth) == ThenFields(fields, ParseFields(content[offset + 1..], depth))
        decreases |content| - offset
      {
        FieldStep(fields, content[offset + 1..], depth);
        var field := ParseOneField();
        if field.No? { return No; }
        if field.Unmodelled? { return Unmodelled; }
        SkipWhitespace();
        fields := AppendField(fields, field.value.0, field.value.1);
        if !At(COMMA) { break; }
        assert Rest()[1..] == content[offset + 1..];
      }
      if !At(CLOSE_BRACE) { return No; }
      assert Rest()[1..] == content[offset + 1..];
      offset := offset + 1;
      return Yes(fields);
    }

    method ParseOneField() returns (r: Parsed<(seq<byte>, Json)>)
      requires offset < |content|
      modifies this
      ensures Valid() && Agrees(r, ReadField(old(content[offset + 1..]), old(depth)), Rest())
      ensures r.Yes? ==> depth == old(depth) && offset > old(offset)
      decreases |content| - offset, 0
    {
      hide ParseValue, Skip, JsonString.Parse;
      NothingLeft(content[offset + 1..], depth);
      if offset + 1 >= |content| { return No; }
      offset := offset + 1;
      SkipWhitespace();
      var key := ParseString();
      if !key.Yes? { return No; }
      SkipWhitespace();
      if !At(COLON) { return No; }
      assert Rest()[1..] == content[offset + 1..];
      offset := offset + 1;
      SkipWhitespace();
      var v := ParseItem();
      if v.No? { return No; }
      if v.Unmodelled? { return Unmodelled; }
      return Yes((key.value, v.value));
    }
  }

  lemma ThenNone(r: Result<Items>)
    ensures Then(NoItems, r) == r
  {
  }

  lemma ThenNoFields(r: Result<Fields>)
    ensures ThenFields(NoFields, r) == r
  {
  }

  lemma NothingLeft(s: seq<byte>, depth: nat)
    ensures s == [] ==> ReadField(s, depth).Fail?
  {
  }

  /** What follows a string is a suffix of what it was parsed from. */
  lemma Suffix(s: seq<byte>, text: seq<byte>, rest: seq<byte>)
    requires JsonString.Parse(s) == Some((text, rest))
    ensures |rest| < |s| && s[|s| - |rest|..] == rest
  {
  }

  // ----- Printing -----

  /** What is printed so far, and what printing the rest yields. */
  function Join(done: seq<byte>, more: Option<seq<byte>>): Option<seq<byte>> {
    match more
    case Some(text) => Some(done + text)
    case None => None
  }

  /** The text of the first of `items`, and what separates it from the next. */
  function ItemText(items: Items, format: bool, depth: nat): seq<byte>
    requires items.Item?
  {
    match Print(items.head, format, depth)
    case Some(first) => first + Between(items.tail, format)
    case None => []
  }

  lemma ItemPrinted(done: seq<byte>, items: Items, format: bool, depth: nat)
    requires items.Item?
    ensures Join(done, PrintItems(items, format, depth)) ==
      match Print(items.head, format, depth)
      case Some(first) => Join(done + ItemText(items, format, depth), PrintItems(items.tail, format, depth))
      case None => None
  {
    hide Print;
    var first, more := Print(items.head, format, depth), PrintItems(items.tail, format, depth);
    if first.Some? && more.Some? {
      var gap := Between(items.tail, format);
      assert done + (first.value + gap + more.value) == done + (first.value + gap) + more.value;
    }
  }

  lemma FieldPrinted(done: seq<byte>, fields: Fields, format: bool, depth: nat)
    requires fields.Field?
    ensures Join(done, PrintFields(fields, format, depth)) ==
      match Print(fields.val, format, depth)
      case Some(value) =>
        Join(done + Indent(format, depth) + JsonString.Print(fields.key) + Colon(format) + value + After(fields.rest, format),
             PrintFields(fields.rest, format, depth))
      case None => None
  {
    hide Print, JsonString.Print, Tabs;
    var value, more := Print(fields.val, format, depth), PrintFields(fields.rest, format, depth);
    if value.Some? && more.Some? {
      Reorder(done, Indent(format, depth), JsonString.Print(fields.key), Colon(format), value.value, After(fields.rest, format), more.value);
    }
  }

  lemma Reorder(done: seq<byte>, a: seq<byte>, b: seq<byte>, c: seq<byte>, d: seq<byte>, e: seq<byte>, f: seq<byte>)
    ensures done + (a + (b + (c + (d + (e + f))))) == done + a + b + c + d + e + f
  {
  }

  lemma {:induction false} NoTerminator(v: Json, format: bool, depth: nat)
    requires Plain(v) && Print(v, format, depth).Some?
    ensures 0 !in Print(v, format, depth).value
    decreases v
  {
    hide JsonString.Escape;
    match v
    case Number(n) => NoZeroDigits(if n < 0 then -n else n);
    case Text(text) => NoZeroEscape(text);
    case Array(items) => NoTerminatorItems(items, format, depth + 1);
    case Object(fields) => NoTerminatorFields(fields, format, depth + 1);
    case _ =>
  }

  lemma {:induction false} NoTerminatorItems(items: Items, format: bool, depth: nat)
    requires PlainItems(items) && PrintItems(items, format, depth).Some?
    ensures 0 !in PrintItems(items, format, depth).value
    decreases items
  {
    hide Print;
    if items.Item? {
      NoTerminator(items.head, format, depth);
      NoTerminatorItems(items.tail, format, depth);
    }
  }

  lemma {:induction false} NoTerminatorFields(fields: Fields, format: bool, depth: nat)
    requires PlainFields(fields) && PrintFields(fields, format, depth).Some?
    ensures 0 !in PrintFields(fields, format, depth).value
    decreases fields
  {
    hide Print, JsonString.Escape;
    if fields.Field? {
      NoZeroEscape(fields.key);
      NoTerminator(fields.val, format, depth);
      NoTerminatorFields(fields.rest, format, depth);
    }
  }

  lemma {:induction false} NoZeroDigits(n: nat)
    ensures 0 !in Digits(n)
  {
    forall i | 0 <= i < |Digits(n)| ensures Digits(n)[i] != 0 { assert IsDigit(Digits(n)[i]); }
  }

  lemma {:induction false} NoZeroEscape(s: seq<byte>)
    ensures 0 !in JsonString.Escape(s)
    decreases |s|
  {
    if s != [] {
      NoZeroEscape(s[1..]);
    }
  }

  class PrintBuffer {
    var buffer: array<byte>
    var offset: nat
    var depth: nat
    const format: bool

    ghost predicate Valid()
      reads this
    {
      offset < buffer.Length
    }

    /** The text printed up to the offset. */
    ghost function Written(): seq<byte>
      reads this, buffer
      requires Valid()
    {
      buffer[..offset]
    }

    /** The buffer holds `text` and its terminator, the end of it perhaps behind the offset. */
    ghost predicate Shows(text: seq<byte>)
      reads this`offset, this`buffer, buffer
    {
      && offset <= |text| < buffer.Length
      && buffer[..|text|] == text && buffer[|text|] == 0
      && 0 !in text[offset..]
    }

    constructor (size: nat, format: bool)
      requires size > 0
      ensures Valid() && Written() == [] && depth == 0 && this.format == format && fresh(buffer)
    {
      buffer := new byte[size];
      offset, depth := 0, 0;
      this.format := format;
    }

    /** `ensure`: room for `needed` more bytes, in a larger buffer if need be. */
    method Ensure(needed: nat) returns (ok: bool)
      requires Valid()
      modifies this`buffer
      ensures Valid() && Written() == old(Written()) && (buffer == old(buffer) || fresh(buffer))
      ensures ok ==> offset + needed < buffer.Length
      ensures offset + needed + 1 <= INT_MAX ==> ok
    {
      if needed > INT_MAX { return false; }
      var wanted := needed + offset + 1;
      if wanted <= buffer.Length { return true; }
      var size;
      if wanted > INT_MAX / 2 {
        if wanted > INT_MAX { return false; }
        size := INT_MAX;
      } else {
        size := wanted * 2;
      }
      var larger, smaller := new byte[size], buffer;
      var i := 0;
      while i < offset + 1
        invariant i <= offset + 1 <= smaller.Length && offset == old(offset) && buffer == smaller
        invariant larger[..i] == smaller[..i] && smaller[..] == old(buffer[..])
      {
        larger[i] := smaller[i];
        i := i + 1;
      }
      assert larger[..offset] == larger[..i][..offset] == smaller[..i][..offset];
      buffer := larger;
      return true;
    }

    /** Writes bytes at the offset, which stays where it is. */
    method Put(bytes: seq<byte>)
      requires Valid() && offset + |bytes| <= buffer.Length
      modifies buffer
      ensures buffer[..offset + |bytes|] == old(Written()) + bytes
    {
      var k := 0;
      while k < |bytes|
        invariant k <= |bytes| && buffer[..offset + k] == old(Written()) + bytes[..k]
      {
        buffer[offset + k] := bytes[k];
        k := k + 1;
      }
      assert bytes[..k] == bytes;
    }

    /** Writes bytes and steps over them. */
    method Advance(bytes: seq<byte>)
      requires Valid() && offset + |bytes| < buffer.Length
      modifies this`offset, buffer
      ensures Valid() && Written() == old(Written()) + bytes
    {
      Put(bytes);
      offset := offset + |bytes|;
    }

    /** Writes bytes and a terminator; the offset stays where it is. */
    method Terminate(bytes: seq<byte>)
      requires Valid() && offset + |bytes| < buffer.Length && 0 !in bytes
      modifies buffer
      ensures Shows(old(Written()) + bytes)
    {
      ghost var text := Written() + bytes;
      Put(bytes);
      buffer[offset + |bytes|] := 0;
      assert buffer[..|text|] == text && text[offset..] == bytes;
    }

    /** `update_offset`: on to the terminator. */
    method UpdateOffset(ghost text: seq<byte>)
      requires Valid() && Shows(text)
      modifies this`offset
      ensures Valid() && Written() == text
    {
      while buffer[offset] != 0
        invariant old(offset) <= offset <= |text| < buffer.Length
        invariant buffer[..|text|] == text && buffer[|text|] == 0 && 0 !in text[old(offset)..]
        decreases |text| - offset
      {
        assert offset < |text|;
        offset := offset + 1;
      }
    }

    /** `print_value`: the text appears behind what was printed, and printing fails only for nesting
        that is too deep or text that is too long. */
    method PrintItem(v: Json) returns (ok: bool)
      requires Valid() && Plain(v)
      modifies this, buffer
      ensures Valid() && (buffer == old(buffer) || fresh(buffer))
      ensures var p := Print(v, format, old(depth));
        ok ==> depth == old(depth) && p.Some? && Shows(old(Written()) + p.value)
      ensures Print(v, format, old(depth)).Some? && old(offset) + |Print(v, format, old(depth)).value| + 2 <= INT_MAX ==> ok
      decreases v, 1
    {
      hide PrintNumber, JsonString.Print;
      if Print(v, format, depth).Some? { NoTerminator(v, format, depth); }
      match v
      case Array(items) => ok := PrintList(items);
      case Object(fields) => ok := PrintRecord(fields);
      case Null => ok := PrintWord(NULL);
      case False => ok := PrintWord(FALSE);
      case True => ok := PrintWord(TRUE);
      case Text(text) => ok := PrintWord(JsonString.Print(text));
      case Number(n) =>
        var digits := PrintNumber(n);
        ok := Ensure(|digits| + 1);
        if ok {
          Advance(digits);
          buffer[offset] := 0;
          assert buffer[..offset] == old(Written()) + digits;
        }
    }

    method PrintWord(word: seq<byte>) returns (ok: bool)
      requires Valid() && 0 !in word
      modifies this, buffer
      ensures Valid() && depth == old(depth) && offset == old(offset) && (buffer == old(buffer) || fresh(buffer))
      ensures ok ==> Shows(old(Written()) + word)
      ensures old(offset) + |word| + 2 <= INT_MAX ==> ok
    {
      ok := Ensure(|word| + 1);
      if ok { Terminate(word); }
    }

    /** `print_array` */
    method PrintList(items: Items) returns (ok: bool)
      requires Valid() && PlainItems(items)
      modifies this, buffer
      ensures Valid() && (buffer == old(buffer) || fresh(buffer))
      ensures var p := Print(Array(items), format, old(depth));
        && (ok ==> depth == old(depth) && p.Some? && Shows(old(Written()) + p.value))
        && (p.Some? && old(offset) + |p.value| + 2 <= INT_MAX ==> ok)
      decreases items, 2
    {
      hide Print, PrintItems, Shows;
      ArrayPrinted(items, format, depth);
      if depth >= NESTING_LIMIT { return false; }
      ghost var base := Written();
      ok := Append([OPEN]);
      if !ok { return false; }
      depth := depth + 1;
      ok := PrintListItems(items);
      if !ok { return false; }
      ghost var inner := PrintItems(items, format, depth).value;
      ok := Ensure(2);
      if !ok { return false; }
      depth := depth - 1;
      Terminate([CLOSE]);
      KeyOrder(base, [OPEN], inner, [CLOSE]);
    }

    /** The loop of `print_array`. */
    method PrintListItems(items: Items) returns (ok: bool)
      requires Valid() && PlainItems(items)
      modifies this, buffer
      ensures Valid() && (buffer == old(buffer) || fresh(buffer))
      ensures ok ==> depth == old(depth) && PrintItems(items, format, depth).Some?
      ensures ok ==> Written() == old(Written()) + PrintItems(items, format, old(depth)).value
      ensures var p := PrintItems(items, format, old(depth)); p.Some? && old(offset) + |p.value| + 3 <= INT_MAX ==> ok
      decreases items, 1
    {
      hide PrintItems, ItemText;
      ghost var base, d := Written(), depth;
      var rest := items;
      ghost var done: seq<byte> := [];
      ghost var all := PrintItems(items, format, d);
      assert base + done == base;
      assert all.Some? ==> [] + all.value == all.value;
      while rest.Item?
        invariant Valid() && depth == d && PlainItems(rest) && (buffer == old(buffer) || fresh(buffer))
        invariant Written() == base + done && all == Join(done, PrintItems(rest, format, d))
        decreases rest
      {
        ItemPrinted(done, rest, format, d);
        ok := PrintListItem(rest);
        if !ok { return false; }
        ghost var one := ItemText(rest, format, d);
        assert base + done + one == base + (done + one);
        done := done + one;
        rest := rest.tail;
      }
      NoItemsText(format, d);
      assert done + [] == done;
      return true;
    }

    /** One turn of the loop of `print_array`. */
    method PrintListItem(items: Items) returns (ok: bool)
      requires Valid() && items.Item? && PlainItems(items)
      modifies this, buffer
      ensures Valid() && (buffer == old(buffer) || fresh(buffer))
      ensures ok ==> depth == old(depth) && Print(items.head, format, depth).Some?
      ensures ok ==> Written() == old(Written()) + ItemText(items, format, old(depth))
      ensures Print(items.head, format, old(depth)).Some? && old(offset) + |ItemText(items, format, old(depth))| + 3 <= INT_MAX ==> ok
      decreases items, 0
    {
      hide Shows, Print;
      ghost var base := Written();
      ok := PrintItem(items.head);
      if !ok { return false; }
      ghost var first := Print(items.head, format, depth).value;
      UpdateOffset(base + first);
      var gap := Between(items.tail, format);
      assert base + first + gap == base + (first + gap);
      if items.tail.Item? {
        ok := Ensure(|gap| + 1);
        if !ok { return false; }
        Advance(gap);
        buffer[offset] := 0;
      }
    }

    /** `print_object` */
    method PrintRecord(fields: Fields) returns (ok: bool)
      requires Valid() && PlainFields(fields)
      modifies this, buffer
      ensures Valid() && (buffer == old(buffer) || fresh(buffer))
      ensures var p := Print(Object(fields), format, old(depth));
        && (ok ==> depth == old(depth) && p.Some? && Shows(old(Written()) + p.value))
        && (p.Some? && old(offset) + |p.value| + 2 <= INT_MAX ==> ok)
      decreases fields, 2
    {
      hide Print, PrintFields, Shows, Head, Foot;
      ObjectPrinted(fields, format, depth);
      if depth >= NESTING_LIMIT { return false; }
      ghost var base := Written();
      var head := Head(format);
      ok := Ensure(|head| + 1);
      if !ok { return false; }
      Advance(head);
      depth := depth + 1;
      ok := PrintRecordFields(fields);
      if !ok { return false; }
      ghost var inner := PrintFields(fields, format, depth).value;
      ok := PrintFoot();
      assert base + head + inner + Foot(format, depth) == base + (head + inner + Foot(format, depth));
    }

    method PrintFoot() returns (ok: bool)
      requires Valid() && depth > 0
      modifies this, buffer
      ensures Valid() && depth == old(depth) - 1 && offset == old(offset) && (buffer == old(buffer) || fresh(buffer))
      ensures ok ==> Shows(old(Written()) + Foot(format, depth))
      ensures old(offset) + |Foot(format, depth)| + 2 <= INT_MAX ==> ok
    {
      ok := Ensure(if format then depth + 1 else 2);
      depth := depth - 1;
      FootNoTerminator(format, depth);
      if ok { Terminate(Foot(format, depth)); }
    }

    /** The loop of `print_object`. */
    method PrintRecordFields(fields: Fields) returns (ok: bool)
      requires Valid() && PlainFields(fields)
      modifies this, buffer
      ensures Valid() && (buffer == old(buffer) || fresh(buffer))
      ensures ok ==> depth == old(depth) && PrintFields(fields, format, depth).Some?
      ensures ok ==> Written() == old(Written()) + PrintFields(fields, format, old(depth)).value
      ensures var p := PrintFields(fields, format, old(depth)); p.Some? && old(offset) + |p.value| + 3 <= INT_MAX ==> ok
      decreases fields, 1
    {
      hide PrintFields, FieldText;
      ghost var base, d := Written(), depth;
      var rest := fields;
      ghost var done: seq<byte> := [];
      ghost var all := PrintFields(fields, format, d);
      assert base + done == base;
      assert all.Some? ==> [] + all.value == all.value;
      while rest.Field?
        invariant Valid() && depth == d && PlainFields(rest) && (buffer == old(buffer) || fresh(buffer))
        invariant Written() == base + done && all == Join(done, PrintFields(rest, format, d))
        decreases rest
      {
        FieldJoin(done, rest, format, d);
        ok := PrintField(rest);
        if !ok { return false; }
        ghost var one := FieldText(rest, format, d);
        assert base + done + one == base + (done + one);
        done := done + one;
        rest := rest.rest;
      }
      NoFieldsText(format, d);
      assert done + [] == done;
      return true;
    }

    /** One turn of the loop of `print_object`. */
    method PrintField(fields: Fields) returns (ok: bool)
      requires Valid() && fields.Field? && PlainFields(fields)
      modifies this, buffer
      ensures Valid() && (buffer == old(buffer) || fresh(buffer))
      ensures ok ==> depth == old(depth) && Print(fields.val, format, depth).Some?
      ensures ok ==> Written() == old(Written()) + FieldText(fields, format, old(depth))
      ensures Print(fields.val, format, old(depth)).Some? && old(offset) + |FieldText(fields, format, old(depth))| + 3 <= INT_MAX ==> ok
      decreases fields, 0
    {
      hide Shows, Print, KeyText;
      ghost var base := Written();
      ok := PrintKey(fields.key);
      if !ok { return false; }
      ghost var before, key := Written(), KeyText(fields.key, format, depth);
      ok := PrintItem(fields.val);
      if !ok { return false; }
      ghost var value := Print(fields.val, format, depth).value;
      UpdateOffset(before + value);
      var end := After(fields.rest, format);
      ok := Ensure(|end| + 1);
      if !ok { return false; }
      Advance(end);
      buffer[offset] := 0;
      assert base + key + value + end == base + (key + (value + end));
    }

    method Append(bytes: seq<byte>) returns (ok: bool)
      requires Valid()
      modifies this, buffer
      ensures Valid() && depth == old(depth) && (buffer == old(buffer) || fresh(buffer))
      ensures ok ==> Written() == old(Written()) + bytes
      ensures old(offset) + |bytes| + 1 <= INT_MAX ==> ok
    {
      ok := Ensure(|bytes|);
      if ok { Advance(bytes); }
    }

    method PrintIndent() returns (ok: bool)
      requires Valid()
      modifies this, buffer
      ensures Valid() && depth == old(depth) && (buffer == old(buffer) || fresh(buffer))
      ensures ok ==> Written() == old(Written()) + Indent(format, old(depth))
      ensures old(offset) + |Indent(format, old(depth))| + 1 <= INT_MAX ==> ok
    {
      hide Tabs;
      if !format { return true; }
      ok := Append(Tabs(depth));
    }

    /** A string, stepped over. */
    method PrintQuoted(key: seq<byte>) returns (ok: bool)
      requires Valid() && 0 !in key
      modifies this, buffer
      ensures Valid() && depth == old(depth) && (buffer == old(buffer) || fresh(buffer))
      ensures ok ==> Written() == old(Written()) + JsonString.Print(key)
      ensures old(offset) + |JsonString.Print(key)| + 2 <= INT_MAX ==> ok
    {
      hide Shows, JsonString.Print;
      ghost var before := Written();
      NoZeroPrinted(key);
      ok := PrintWord(JsonString.Print(key));
      if ok { UpdateOffset(before + JsonString.Print(key)); }
    }

    method PrintKey(key: seq<byte>) returns (ok: bool)
      requires Valid() && 0 !in key
      modifies this, buffer
      ensures Valid() && depth == old(depth) && (buffer == old(buffer) || fresh(buffer))
      ensures ok ==> Written() == old(Written()) + KeyText(key, format, old(depth))
      ensures old(offset) + |KeyText(key, format, old(depth))| + 3 <= INT_MAX ==> ok
    {
      hide Shows, Indent, JsonString.Print, Colon;
      KeyOrder(Written(), Indent(format, depth), JsonString.Print(key), Colon(format));
      ok := PrintIndent();
      if !ok { return false; }
      ok := PrintQuoted(key);
      if !ok { return false; }
      ok := Append(Colon(format));
    }
  }

  lemma KeyOrder(base: seq<byte>, a: seq<byte>, b: seq<byte>, c: seq<byte>)
    ensures base + a + b + c == base + (a + b + c) && |a + b + c| == |a| + |b| + |c|
  {
  }

  /** What stands before the value of a field. */
  function KeyText(key: seq<byte>, format: bool, depth: nat): seq<byte> {
    Indent(format, depth) + JsonString.Print(key) + Colon(format)
  }

  /** The text of the first of `fields`. */
  function FieldText(fields: Fields, format: bool, depth: nat): seq<byte>
    requires fields.Field?
  {
    match Print(fields.val, format, depth)
    case Some(value) => KeyText(fields.key, format, depth) + (value + After(fields.rest, format))
    case None => []
  }

  lemma FieldAssociate(base: seq<byte>, a: seq<byte>, b: seq<byte>, c: seq<byte>, d: seq<byte>, e: seq<byte>)
    ensures base + a + b + c + d + e == base + (a + b + c + (d + e))
  {
  }

  lemma FieldJoin(done: seq<byte>, fields: Fields, format: bool, depth: nat)
    requires fields.Field?
    ensures Join(done, PrintFields(fields, format, depth)) ==
      if Print(fields.val, format, depth).Some? then Join(done + FieldText(fields, format, depth), PrintFields(fields.rest, format, depth)) else None
  {
    hide Print, JsonString.Print, Tabs;
    FieldPrinted(done, fields, format, depth);
    if Print(fields.val, format, depth).Some? {
      FieldAssociate(done, Indent(format, depth), JsonString.Print(fields.key), Colon(format), Print(fields.val, format, depth).value, After(fields.rest, format));
    }
  }

  lemma NoZeroPrinted(s: seq<byte>)
    ensures 0 !in JsonString.Print(s)
  {
    NoZeroEscape(s);
  }

  lemma ArrayPrinted(items: Items, format: bool, depth: nat)
    ensures Print(Array(items), format, depth) ==
      if depth >= NESTING_LIMIT || PrintItems(items, format, depth + 1).None? then None
      else Some([OPEN] + PrintItems(items, format, depth + 1).value + [CLOSE])
  {
  }

  lemma ObjectPrinted(fields: Fields, format: bool, depth: nat)
    ensures Print(Object(fields), format, depth) ==
      if depth >= NESTING_LIMIT || PrintFields(fields, format, depth + 1).None? then None
      else Some(Head(format) + PrintFields(fields, format, depth + 1).value + Foot(format, depth))
    ensures |Head(format)| == (if format then 2 else 1) && |Foot(format, depth)| == (if format then depth + 1 else 1)
  {
  }

  lemma FootNoTerminator(format: bool, depth: nat)
    ensures 0 !in Foot(format, depth)
  {
  }
}
