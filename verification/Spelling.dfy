/** The lexical grammar, token by token: how each token is written, and that the lexer of
    `src/compiler/lexer/mod.rs` reads exactly what is written so. */
module Spelling {
  import opened Ast
  import opened Lexing
  import opened Relexing
  import opened Wrappers

  // ----- Signs and words -----

  /** The signs and words of an operator. */
  function OpSpellings(op: BinOp): set<string> {
    match op
    case Add => {"+"}
    case Sub => {"-"}
    case Mul => {"*"}
    case Div => {"/"}
    case Eq => {"="}
    case Lt => {"<", "lt"}
    case Gt => {"gt"}
    case BitAnd => {"&"}
    case BitOr => {"|"}
    case BitXor => {"xor"}
  }

  function PrimSpellings(prim: PrimOp): set<string> {
    match prim
    case Len => {"sl"}
    case Cat => {"sc"}
    case SubStr => {"ss"}
    case Loc => {"sf"}
    case Reg => {"sr"}
    case Read => {"("}
    case Write => {")"}
    case Str => {"str"}
    case Split => {"sp"}
    case TimeNow => {"tn"}
    case TimeNano => {"tns"}
    case TimeZone => {"tz"}
    case TimeGet => {"tg"}
    case TimeSet => {"ts"}
    case Env => {"env"}
    case Seq => {"."}
    case OtelEmit => {"oe"}
    case Panic => {"!"}
    case HttpClient => {"http"}
    case HttpServer => {"srv"}
    case HttpHeader => {"hdr"}
    case FileOpen => {"fo"}
    case Binary(_) | TimeArith(_) | MoneyArith(_) | MoneyStr => {}
  }

  /** The signs and words of a token, if it has any. */
  function Spellings(t: Token): set<string> {
    match t
    case Op(op) => OpSpellings(op)
    case Key(prim) => PrimSpellings(prim)
    case Pack(operands) => if operands == 1 then {"jp"} else if operands == 2 then {"ju"} else {}
    case Move => {">"}
    case Borrow => {"$"}
    case MutBorrow => {"~"}
    case Define => {":"}
    case Shape => {"#"}
    case New => {"N"}
    case Get => {"G"}
    case Set => {"S"}
    case Let => {"L"}
    case Import => {"I"}
    case Export => {"X"}
    case Metadata => {"M"}
    case Question => {"?"}
    case Bang => {"`"}
    case Money => {"%"}
    case Map => {"map"}
    case Filter => {"flt"}
    case Router => {"rt"}
    case Trap => {"^"}
    case Apply(_) | DeBruijn(_) | Integer(_) | Float(_) | Text(_) | Identifier(_) | EOF | Bad => {}
  }

  ghost predicate Reserved(word: string) {
    exists t :: word in Spellings(t)
  }

  // ----- Characters -----

  /** White space, by code point. */
  predicate Blank(c: char) {
    c as int in {9, 10, 11, 12, 13, 32, 0x85, 0xA0, 0x1680, 0x2028, 0x2029, 0x202F, 0x205F, 0x3000}
    || 0x2000 <= c as int <= 0x200A
  }

  predicate Digit(c: char) { 48 <= c as int <= 57 }

  predicate Letter(c: char) { 97 <= c as int <= 122 || 65 <= c as int <= 90 }

  /** What a name may hold: ASCII letters and digits, the underscore, and letters and digits beyond. */
  predicate NameChar(c: char, u: Unicode) {
    c == '_' || Letter(c) || Digit(c) || (c as int > 127 && u(c) && !Blank(c))
  }

  lemma CharsExact(c: char, u: Unicode)
    ensures IsSpace(c) <==> Blank(c)
    ensures IsDigit(c) <==> Digit(c)
    ensures IsLetter(c) <==> Letter(c)
    ensures IsWordChar(c, u) <==> NameChar(c, u)
  {
    SpaceExact(c);
  }

  lemma SpaceExact(c: char)
    ensures IsSpace(c) <==> Blank(c)
  {
  }

  predicate Digits(s: string) {
    forall i | 0 <= i < |s| :: Digit(s[i])
  }

  function Power(n: nat): nat {
    if n == 0 then 1 else 10 * Power(n - 1)
  }

  /** The number that decimal digits denote, each by its place. */
  function Value(digits: string): nat
    requires Digits(digits)
  {
    if digits == "" then 0 else (digits[0] as int - 48) * Power(|digits| - 1) + Value(digits[1..])
  }

  lemma {:induction false} ValueSnoc(digits: string, c: char)
    requires Digits(digits) && Digit(c)
    ensures Digits(digits + [c]) && Value(digits + [c]) == 10 * Value(digits) + (c as int - 48)
    decreases |digits|
  {
    if digits == "" {
      assert digits + [c] == [c];
      assert [c][1..] == "" && Power(0) == 1;
    } else {
      ValueSnoc(digits[1..], c);
      assert (digits + [c])[1..] == digits[1..] + [c];
      assert Power(|digits|) == 10 * Power(|digits| - 1);
      TenTimes(digits[0] as int - 48, Power(|digits| - 1));
    }
  }

  lemma TenTimes(d: int, p: nat)
    ensures d * (10 * p) == 10 * (d * p)
  {
  }

  lemma {:induction false} NatOfValue(digits: string)
    requires Digits(digits)
    ensures AllDigits(digits) && NatOf(digits) == Value(digits)
    decreases |digits|
  {
    forall i | 0 <= i < |digits| ensures IsDigit(digits[i]) { assert Digit(digits[i]); }
    if digits != "" {
      var last := |digits| - 1;
      NatOfValue(digits[..last]);
      ValueSnoc(digits[..last], digits[last]);
      assert digits[..last] + [digits[last]] == digits;
    }
  }

  /** The number of an index or an arity; what does not fit 64 bits counts as `default`. */
  function Clipped(digits: string, default: nat): nat
    requires Digits(digits)
  {
    if Value(digits) <= 0xFFFF_FFFF_FFFF_FFFF then Value(digits) else default
  }

  // ----- How tokens are written -----

  predicate NoDigit(rest: string) { rest != "" ==> !Digit(rest[0]) }

  predicate NoNumber(rest: string) { rest != "" ==> !Digit(rest[0]) && rest[0] != '.' }

  predicate NoName(rest: string, u: Unicode) { rest != "" ==> !NameChar(rest[0], u) }

  /** A word begins with a letter that is not itself a sign, or with an underscore. */
  predicate IsWord(w: string, u: Unicode) {
    && w != "" && (Letter(w[0]) || w[0] == '_') && w[0] !in {'N', 'G', 'S', 'M', 'X', 'L', 'I'}
    && forall i | 0 <= i < |w| :: NameChar(w[i], u)
  }

  /** What a backslash makes of the character behind it. */
  predicate Stands(e: char, c: char) {
    || (e == 'n' && c as int == 10)
    || (e == 't' && c as int == 9)
    || (e == 'r' && c as int == 13)
    || (e !in {'n', 't', 'r'} && c == e)
  }

  /** `body` is the text `s` with its closing quote, which may be missing at the end of the source; a
      backslash there stands for nothing. */
  predicate Quotes(body: string, s: string, atEnd: bool) {
    if body == "" then atEnd && s == ""
    else if body[0] == '"' then body == "\"" && s == ""
    else if body == "\\" then atEnd && s == ""
    else if body[0] == '\\' then s != "" && Stands(body[1], s[0]) && Quotes(body[2..], s[1..], atEnd)
    else s != "" && s[0] == body[0] && Quotes(body[1..], s[1..], atEnd)
  }

  /** `word` is a way to write `t` where `rest` follows. */
  ghost predicate Written(t: Token, word: string, rest: string, u: Unicode) {
    match t
    case Apply(n) => word != "" && word[0] == '@' && Digits(word[1..]) && NoDigit(rest) && n == (if word == "@" then 1 else Clipped(word[1..], 1))
    case DeBruijn(n) => |word| > 1 && word[0] == '^' && Digits(word[1..]) && NoDigit(rest) && n == Clipped(word[1..], 0)
    case Trap => word == "^" && NoDigit(rest)
    case Integer(v) => word != "" && Digits(word) && NoNumber(rest) && v == Value(word) <= 0x7FFF_FFFF_FFFF_FFFF
    case Float(text) => text == word && IsFloat(word) && NoNumber(rest)
    case Text(s) => word != "" && word[0] == '"' && Quotes(word[1..], s, rest == "")
    case Identifier(name) => name == word && IsWord(word, u) && !Reserved(word) && NoName(rest, u)
    case _ =>
      && word in Spellings(t)
      && (word == "/" ==> rest != "" ==> rest[0] != '/')
      && (IsWord(word, u) ==> NoName(rest, u))
  }

  predicate IsFloat(word: string) {
    && word != "" && Digit(word[0]) && '.' in word
    && forall i | 0 <= i < |word| :: Digit(word[i]) || word[i] == '.'
  }

  /** What the lexer skips: white space, and comments up to the end of their line; at the end of the
      source the line end may be missing. */
  ghost predicate Gap(g: string, atEnd: bool)
    decreases |g|, 1
  {
    || g == ""
    || (Blank(g[0]) && Gap(g[1..], atEnd))
    || (|g| >= 2 && g[0] == '/' && g[1] == '/' && atEnd && '\n' !in g)
    || (|g| >= 2 && g[0] == '/' && g[1] == '/' && exists k | 2 <= k < |g| :: GapFrom(g, k, atEnd))
  }

  /** A first line that ends at `k`, and what is skipped behind it. */
  ghost predicate GapFrom(g: string, k: nat, atEnd: bool)
    requires k < |g|
    decreases |g|, 0
  {
    g[k] == '\n' && '\n' !in g[..k] && Gap(g[k + 1..], atEnd)
  }

  lemma KeywordSpelled(w: string)
    ensures Keyword(w) == Token.Identifier(w) || w in Spellings(Keyword(w))
  {
  }



  /** A spelling is one sign, or a word of lower-case letters. */
  lemma SpellingForm(w: string, t: Token)
    requires w in Spellings(t)
    ensures |w| == 1 ==> (w == "/" && t == Op(Div)) || (w == "^" && t == Token.Trap) || Punctuation(w[0]) == Some(t)
    ensures |w| != 1 ==> |w| > 1 && 'a' <= w[0] <= 'z' && Keyword(w) == t && forall i | 0 <= i < |w| :: 'a' <= w[i] <= 'z'
  {
    match t
    case Op(op) =>
    case Key(prim) => PrimForm(w, prim);
    case _ =>
  }

  lemma PrimForm(w: string, prim: PrimOp)
    requires w in PrimSpellings(prim)
    ensures |w| == 1 ==> Punctuation(w[0]) == Some(Key(prim))
    ensures |w| != 1 ==> |w| > 1 && 'a' <= w[0] <= 'z' && Keyword(w) == Key(prim) && forall i | 0 <= i < |w| :: 'a' <= w[i] <= 'z'
  {
  }

  lemma SignSpelled(c: char)
    requires Punctuation(c).Some?
    ensures [c] in Spellings(Punctuation(c).value) && Punctuation(c).value != EOF && Punctuation(c).value != Bad
    ensures !Punctuation(c).value.Trap? && c != '/' && c != '_' && !('a' <= c <= 'z')
    ensures Letter(c) ==> c in {'N', 'G', 'S', 'M', 'X', 'L', 'I'}
  {
  }

  lemma LetterSign(c: char)
    requires c in {'N', 'G', 'S', 'M', 'X', 'L', 'I'}
    ensures Punctuation(c).Some?
  {
  }

  lemma LetterNoSign(c: char)
    requires (Letter(c) || c == '_') && c !in {'N', 'G', 'S', 'M', 'X', 'L', 'I'}
    ensures Punctuation(c).None? && !IsSpace(c) && c != '@' && c != '^' && c != '/' && c != '"' && !IsDigit(c)
  {
  }

  // ----- What is written is read -----

  lemma {:induction false} DigitRunEnds(w: string, rest: string)
    requires Digits(w) && NoDigit(rest)
    ensures DigitRun(w + rest) == |w|
    decreases |w|
  {
    if w == "" {
      assert w + rest == rest;
    } else {
      assert (w + rest)[1..] == w[1..] + rest;
      DigitRunEnds(w[1..], rest);
    }
  }

  lemma {:induction false} NumberRunEnds(w: string, rest: string)
    requires NoNumber(rest) && forall i | 0 <= i < |w| :: Digit(w[i]) || w[i] == '.'
    ensures NumberRun(w + rest) == |w|
    decreases |w|
  {
    if w == "" {
      assert w + rest == rest;
    } else {
      assert (w + rest)[1..] == w[1..] + rest;
      NumberRunEnds(w[1..], rest);
    }
  }

  lemma {:induction false} WordRunEnds(w: string, rest: string, u: Unicode)
    requires NoName(rest, u) && forall i | 0 <= i < |w| :: NameChar(w[i], u)
    ensures WordRun(w + rest, u) == |w|
    decreases |w|
  {
    if w == "" {
      assert w + rest == rest;
      if rest != "" { CharsExact(rest[0], u); }
    } else {
      CharsExact(w[0], u);
      assert (w + rest)[1..] == w[1..] + rest;
      WordRunEnds(w[1..], rest, u);
    }
  }

  lemma {:induction false} QuotesRead(body: string, s: string, rest: string)
    requires Quotes(body, s, rest == "")
    ensures LexString(body + rest) == (s, rest)
    decreases |body|
  {
    var text := body + rest;
    if body == "" {
      assert text == "";
    } else if body[0] == '"' {
      assert text[1..] == rest;
    } else if body == "\\" {
      assert text == "\\";
    } else if body[0] == '\\' {
      assert text[2..] == body[2..] + rest && text[1] == body[1];
      QuotesRead(body[2..], s[1..], rest);
      assert s == [s[0]] + s[1..];
    } else {
      assert text[1..] == body[1..] + rest;
      QuotesRead(body[1..], s[1..], rest);
      assert s == [s[0]] + s[1..];
    }
  }

  lemma IndexedNext(c: char, digits: string, rest: string, u: Unicode)
    requires (c == '@' || c == '^') && Digits(digits) && NoDigit(rest)
    ensures AllDigits(digits)
    ensures Next([c] + digits + rest, u)
            == (if c == '@' then Token.Apply(if digits == "" then 1 else UsizeOr(digits, 1))
                else if digits == "" then Token.Trap else Token.DeBruijn(UsizeOr(digits, 0)), rest)
  {
    hide UsizeOr, Keyword, LexString, LexNumber;
    var s := [c] + digits + rest;
    assert s[1..] == digits + rest && s[0] == c;
    DigitRunEnds(digits, rest);
    assert (digits + rest)[..|digits|] == digits && (digits + rest)[|digits|..] == rest;
    NatOfValue(digits);
    assert Punctuation(c).None? && !IsSpace(c);
  }

  lemma WrittenIndexed(t: Token, word: string, rest: string, u: Unicode)
    requires (t.Apply? || t.DeBruijn? || t.Trap?) && Written(t, word, rest, u)
    ensures Next(word + rest, u) == (t, rest)
  {
    hide Next, Spellings, Keyword;
    var digits := word[1..];
    assert word == [word[0]] + digits;
    IndexedNext(word[0], digits, rest, u);
    NatOfValue(digits);
  }

  lemma WrittenNumber(t: Token, word: string, rest: string, u: Unicode)
    requires (t.Integer? || t.Float?) && Written(t, word, rest, u)
    ensures Next(word + rest, u) == (t, rest)
  {
    var s := word + rest;
    assert s[0] == word[0] && Digit(word[0]);
    NumberRunEnds(word, rest);
    assert s[..|word|] == word && s[|word|..] == rest;
    DigitNotPunctuation(s[0]);
    if t.Integer? {
      NatOfValue(word);
    } else {
      var k :| 0 <= k < |word| && word[k] == '.';
      assert !IsDigit(word[k]);
    }
  }

  lemma WrittenWord(t: Token, word: string, rest: string, u: Unicode)
    requires IsWord(word, u) && NoName(rest, u) && Keyword(word) == t
    ensures Next(word + rest, u) == (t, rest)
  {
    hide Keyword;
    var s := word + rest;
    assert s[0] == word[0];
    WordRunEnds(word, rest, u);
    assert s[..|word|] == word && s[|word|..] == rest;
    LetterNoSign(s[0]);
  }

  /** A token that is written in one of its ways is what the lexer reads. */
  lemma WrittenNext(t: Token, word: string, rest: string, u: Unicode)
    requires Written(t, word, rest, u)
    ensures word != "" && Next(word + rest, u) == (t, rest)
  {
    hide Next, Keyword, Punctuation;
    match t
    case Apply(_) => WrittenIndexed(t, word, rest, u);
    case DeBruijn(_) => WrittenIndexed(t, word, rest, u);
    case Trap => WrittenIndexed(t, word, rest, u);
    case Integer(_) => WrittenNumber(t, word, rest, u);
    case Float(_) => WrittenNumber(t, word, rest, u);
    case Text(s) => WrittenText(s, word, rest, u);
    case Identifier(_) =>
      KeywordSpelled(word);
      WrittenWord(t, word, rest, u);
    case _ => WrittenSpelling(t, word, rest, u);
  }

  lemma WrittenText(s: string, word: string, rest: string, u: Unicode)
    requires Written(Token.Text(s), word, rest, u)
    ensures Next(word + rest, u) == (Token.Text(s), rest)
  {
    assert (word + rest)[1..] == word[1..] + rest;
    QuotesRead(word[1..], s, rest);
    assert Punctuation('"').None? && !IsSpace('"');
  }

  lemma WrittenSpelling(t: Token, word: string, rest: string, u: Unicode)
    requires word in Spellings(t) && (word == "/" ==> rest != "" ==> rest[0] != '/')
    requires (IsWord(word, u) ==> NoName(rest, u)) && !t.Trap?
    ensures word != "" && Next(word + rest, u) == (t, rest)
  {
    hide Keyword, Spellings, Punctuation;
    SpellingForm(word, t);
    if |word| == 1 {
      var s := word + rest;
      assert s[0] == word[0] && s[1..] == rest;
      if word == "/" {
        SlashNoSign();
      } else {
        PunctuationNotSpace(word[0]);
      }
    } else {
      LowerIsWord(word, u);
      WrittenWord(t, word, rest, u);
    }
  }

  lemma SlashNoSign()
    ensures Punctuation('/').None?
  {
  }

  lemma LowerIsWord(w: string, u: Unicode)
    requires w != "" && forall i | 0 <= i < |w| :: 'a' <= w[i] <= 'z'
    ensures IsWord(w, u)
  {
    assert 'a' <= w[0] <= 'z';
    forall i | 0 <= i < |w| ensures NameChar(w[i], u) {
      assert 'a' <= w[i] <= 'z';
    }
  }

  // ----- What is skipped -----

  lemma {:induction false} LineSkipped(g: string, k: nat, rest: string)
    requires k < |g| && g[k] == '\n' && '\n' !in g[..k]
    ensures AfterLine(g + rest) == g[k + 1..] + rest
    decreases k
  {
    if k > 0 {
      assert g[0] == g[..k][0];
      assert (g + rest)[1..] == g[1..] + rest;
      assert g[1..][..k - 1] == g[..k][1..];
      LineSkipped(g[1..], k - 1, rest);
      assert g[1..][k..] == g[k + 1..];
    } else {
      assert (g + rest)[1..] == g[1..] + rest;
    }
  }

  lemma {:induction false} LastLine(g: string)
    requires '\n' !in g
    ensures AfterLine(g) == ""
  {
    if g != "" { LastLine(g[1..]); }
  }

  /** White space and comments are skipped. */
  lemma {:induction false} GapSkipped(g: string, rest: string, u: Unicode)
    requires Gap(g, false)
    ensures Next(g + rest, u) == Next(rest, u)
    decreases |g|
  {
    hide Next, IsSpace, Blank, AfterLine;
    var s := g + rest;
    if g == "" {
      assert s == rest;
    } else if Blank(g[0]) && Gap(g[1..], false) {
      SpaceSkipped(s, u);
      assert s[1..] == g[1..] + rest;
      GapSkipped(g[1..], rest, u);
    } else {
      var k :| 2 <= k < |g| && GapFrom(g, k, false);
      assert s[1..] == g[1..] + rest && s[1..][0] == '/';
      assert g[1..][..k - 1] == g[..k][1..];
      LineSkipped(g[1..], k - 1, rest);
      assert g[1..][k..] == g[k + 1..];
      GapSkipped(g[k + 1..], rest, u);
      CommentSkipped(s, u);
    }
  }

  /** Whatever is written as the grammar says, behind a gap, is read as that token. */
  lemma LexComplete(gap: string, t: Token, word: string, rest: string, u: Unicode)
    requires Gap(gap, false) && Written(t, word, rest, u)
    ensures Next(gap + word + rest, u) == (t, rest)
  {
    hide Written, Next, Gap;
    assert gap + word + rest == gap + (word + rest);
    GapSkipped(gap, word + rest, u);
    WrittenNext(t, word, rest, u);
  }

  // ----- What is read is written -----

  lemma QuotesEscape(e: char, body: string, s: string, atEnd: bool)
    requires Quotes(body, s, atEnd)
    ensures Quotes(['\\', e] + body, [Unescaped(e)] + s, atEnd)
  {
    assert (['\\', e] + body)[2..] == body && ([Unescaped(e)] + s)[1..] == s;
  }

  lemma QuotesPlain(c: char, body: string, s: string, atEnd: bool)
    requires Quotes(body, s, atEnd) && c != '"' && c != '\\'
    ensures Quotes([c] + body, [c] + s, atEnd)
  {
    assert ([c] + body)[1..] == body && ([c] + s)[1..] == s;
  }

  lemma {:induction false} QuotesSound(s: string)
    ensures var (text, after) := LexString(s);
      |after| <= |s| && s[|s| - |after|..] == after && Quotes(s[..|s| - |after|], text, after == "")
    decreases |s|
  {
    if s != "" && s[0] == '\\' && |s| > 1 {
      hide Quotes;
      var (text, after) := LexString(s[2..]);
      QuotesSound(s[2..]);
      var n := |s| - |after|;
      QuotesEscape(s[1], s[2..][..n - 2], text, after == "");
      assert s[..n] == ['\\', s[1]] + s[2..][..n - 2] && s[2..][n - 2..] == s[n..];
    } else if s != "" && s[0] != '"' && s[0] != '\\' {
      hide Quotes;
      var (text, after) := LexString(s[1..]);
      QuotesSound(s[1..]);
      var n := |s| - |after|;
      QuotesPlain(s[0], s[1..][..n - 1], text, after == "");
      assert s[..n] == [s[0]] + s[1..][..n - 1] && s[1..][n - 1..] == s[n..];
    }
  }

  /** A word that is a spelling is read as its token, which is not one of those with a form of their own. */
  lemma SpelledWord(word: string, t: Token, u: Unicode)
    requires word in Spellings(t) && IsWord(word, u)
    ensures Keyword(word) == t
    ensures !t.Apply? && !t.DeBruijn? && !t.Integer? && !t.Float? && !t.Text? && !t.Identifier? && !t.Trap?
  {
    hide Keyword, Punctuation;
    SpellingForm(word, t);
    if |word| == 1 { LetterNoSign(word[0]); }
  }

  lemma KeywordWritten(word: string, rest: string, u: Unicode)
    requires IsWord(word, u) && NoName(rest, u)
    ensures Written(Keyword(word), word, rest, u)
  {
    hide Keyword, Spellings;
    KeywordSpelled(word);
    var t := Keyword(word);
    if word in Spellings(t) {
      SpelledWord(word, t, u);
    } else if Reserved(word) {
      var t' :| word in Spellings(t');
      SpelledWord(word, t', u);
    }
  }

  lemma SpellingWritten(c: char, rest: string, u: Unicode)
    requires Punctuation(c).Some?
    ensures Written(Punctuation(c).value, [c], rest, u)
  {
    hide Punctuation, Spellings;
    SignSpelled(c);
    SpelledPlain(c);
  }

  lemma SpelledPlain(c: char)
    requires Punctuation(c).Some?
    ensures var t := Punctuation(c).value; !t.Apply? && !t.DeBruijn? && !t.Integer? && !t.Float? && !t.Text? && !t.Identifier?
  {
  }

  lemma DigitsSound(s: string)
    ensures var n := DigitRun(s); Digits(s[..n]) && NoDigit(s[n..])
  {
    var n := DigitRun(s);
    forall i | 0 <= i < n ensures Digit(s[i]) { assert IsDigit(s[i]); }
  }

  /** The token at a character that is neither white space nor the start of a comment. */
  predicate AtToken(s: string) {
    s != "" && !IsSpace(s[0]) && !(|s| >= 2 && s[0] == '/' && s[1] == '/')
  }

  ghost predicate ReadHere(s: string, u: Unicode) {
    var (t, rest) := Next(s, u);
    t == Bad || (|rest| < |s| && s[|s| - |rest|..] == rest && Written(t, s[..|s| - |rest|], rest, u))
  }

  lemma IndexedSound(s: string, u: Unicode)
    requires AtToken(s) && (s[0] == '@' || s[0] == '^')
    ensures ReadHere(s, u)
  {
    hide Next, Keyword, Spellings;
    var rest := s[1..];
    var n := DigitRun(rest);
    var digits := rest[..n];
    DigitsSound(rest);
    NatOfValue(digits);
    assert s == [s[0]] + digits + rest[n..] && s[..n + 1] == [s[0]] + digits && s[n + 1..] == rest[n..];
    IndexedNext(s[0], digits, rest[n..], u);
    assert "^" in Spellings(Token.Trap) by { TrapSpelled(); }
  }

  lemma TrapSpelled()
    ensures "^" in Spellings(Token.Trap)
  {
  }

  lemma TextSound(s: string, u: Unicode)
    requires AtToken(s) && s[0] == '"'
    ensures ReadHere(s, u)
  {
    hide Keyword, Punctuation, LexString, Quotes, Spellings;
    var rest := s[1..];
    var (text, after) := LexString(rest);
    QuotesSound(rest);
    assert Next(s, u) == (Token.Text(text), after) by { QuoteNext(s, u); }
    var n := |s| - |after|;
    assert s[..n][1..] == rest[..n - 1] && s[n..] == rest[n - 1..];
    assert s[..n][0] == '"';
  }

  lemma QuoteNext(s: string, u: Unicode)
    requires s != "" && s[0] == '"'
    ensures Next(s, u) == (Token.Text(LexString(s[1..]).0), LexString(s[1..]).1)
  {
    hide LexString, Keyword;
    assert Punctuation('"').None? && !IsSpace('"');
  }

  lemma NumberSound(s: string, u: Unicode)
    requires AtToken(s) && IsDigit(s[0])
    ensures ReadHere(s, u)
  {
    hide Punctuation, IsSpace;
    DigitNotPunctuation(s[0]);
    var n := NumberRun(s);
    var word := s[..n];
    assert Next(s, u) == (LexNumber(word), s[n..]);
    if AllDigits(word) {
      forall i | 0 <= i < n ensures Digit(word[i]) { assert IsDigit(word[i]); }
      NatOfValue(word);
    } else {
      var k :| 0 <= k < n && !IsDigit(word[k]);
      assert IsNumberChar(s[k]) && word[k] == '.';
      forall i | 0 <= i < n ensures Digit(word[i]) || word[i] == '.' { assert IsNumberChar(s[i]); }
    }
  }

  lemma WordSound(s: string, u: Unicode)
    requires AtToken(s) && Punctuation(s[0]).None? && (IsLetter(s[0]) || s[0] == '_')
    ensures ReadHere(s, u)
  {
    hide Keyword, Punctuation, Written;
    var n := WordRun(s, u);
    var word := s[..n];
    CharsExact(s[0], u);
    assert word[0] == s[0] && s[0] !in {'N', 'G', 'S', 'M', 'X', 'L', 'I'} by {
      if s[0] in {'N', 'G', 'S', 'M', 'X', 'L', 'I'} { LetterSign(s[0]); }
    }
    LetterNoSign(s[0]);
    forall i | 0 <= i < n ensures NameChar(word[i], u) { CharsExact(s[i], u); }
    if n < |s| { CharsExact(s[n], u); }
    KeywordWritten(word, s[n..], u);
    assert Next(s, u) == (Keyword(word), s[n..]);
  }

  lemma HereSound(s: string, u: Unicode)
    requires AtToken(s)
    ensures ReadHere(s, u)
  {
    hide Keyword, Written, IsSpace;
    var c := s[0];
    if Punctuation(c).Some? {
      SpellingWritten(c, s[1..], u);
      assert s[..1] == [c];
    } else if c == '@' || c == '^' {
      IndexedSound(s, u);
    } else if c == '/' {
      SlashWritten(s[1..], u);
      assert s[..1] == "/";
    } else if c == '"' {
      TextSound(s, u);
    } else if IsDigit(c) {
      NumberSound(s, u);
    } else if IsLetter(c) || c == '_' {
      WordSound(s, u);
    }
  }

  lemma SlashWritten(rest: string, u: Unicode)
    requires rest != "" ==> rest[0] != '/'
    ensures Written(Op(Div), "/", rest, u)
  {
  }

  /** What is left behind a comment, and the comment. */
  lemma {:induction false} LineSound(s: string) returns (k: nat)
    ensures AfterLine(s) != "" || '\n' in s ==> k < |s| && s[k] == '\n' && '\n' !in s[..k] && AfterLine(s) == s[k + 1..]
    ensures AfterLine(s) == "" && '\n' !in s ==> k == |s|
    decreases |s|
  {
    if s == "" || s[0] == '\n' {
      k := 0;
    } else {
      var k' := LineSound(s[1..]);
      k := k' + 1;
      if k < |s| {
        assert s[..k] == [s[0]] + s[1..][..k'];
        assert s[1..][k' + 1..] == s[k + 1..];
      }
    }
  }

  /** `s` begins with a gap, then `word`, which is a way to write `t` before `rest`. */
  ghost predicate Lexeme(s: string, gap: string, t: Token, word: string, rest: string, u: Unicode) {
    s == gap + word + rest && Gap(gap, false) && Written(t, word, rest, u)
  }

  lemma BlankGap(c: char, g: string, atEnd: bool)
    requires Blank(c) && Gap(g, atEnd)
    ensures Gap([c] + g, atEnd)
  {
    assert ([c] + g)[1..] == g;
  }

  lemma LineGap(line: string, k: nat, g: string, atEnd: bool)
    requires k + 1 == |line| && 2 <= k && line[0] == line[1] == '/' && line[k] == '\n' && '\n' !in line[..k]
    requires Gap(g, atEnd)
    ensures Gap(line + g, atEnd)
  {
    var s := line + g;
    assert s[..k] == line[..k] && s[k + 1..] == g;
    assert GapFrom(s, k, atEnd);
  }

  lemma {:induction false} LexSound(s: string, u: Unicode) returns (gap: string, word: string)
    requires Next(s, u).0 != EOF && Next(s, u).0 != Bad
    ensures Lexeme(s, gap, Next(s, u).0, word, Next(s, u).1, u)
    decreases |s|
  {
    hide Written, Gap, Keyword, IsSpace, Next;
    if AtToken(s) {
      HereSound(s, u);
      gap, word := "", s[..|s| - |Next(s, u).1|];
      EmptyGap();
      assert s == gap + word + Next(s, u).1;
    } else if s == "" {
      NextOfNothing(u);
      assert false;
    } else {
      var skipped := SkippedSound(s, u);
      var gap';
      gap', word := LexSound(s[|skipped|..], u);
      gap := skipped + gap';
      assert s == skipped + s[|skipped|..];
      Associate3(skipped, gap', word, Next(s, u).1);
      assert Gap(gap, false);
    }
  }

  /** The white space or the comment that the lexer skips first. */
  lemma SkippedSound(s: string, u: Unicode) returns (skipped: string)
    requires s != "" && !AtToken(s) && Next(s, u).0 != EOF
    ensures 0 < |skipped| <= |s| && skipped == s[..|skipped|] && Next(s[|skipped|..], u) == Next(s, u)
    ensures forall g {:trigger Gap(skipped + g, false)} | Gap(g, false) :: Gap(skipped + g, false)
  {
    hide Written, Gap, Keyword, IsSpace;
    if IsSpace(s[0]) {
      SpaceExact(s[0]);
      skipped := [s[0]];
      forall g | Gap(g, false) ensures Gap(skipped + g, false) { BlankGap(s[0], g, false); }
    } else {
      CommentSkipped(s, u);
      var k := LineSound(s[1..]);
      if k == |s[1..]| { NextOfNothing(u); }
      skipped := s[..k + 2];
      assert s[1..][k + 1..] == s[k + 2..];
      assert skipped[..k + 1] == [s[0]] + s[1..][..k];
      assert skipped[0] == '/' && skipped[1] == '/' && skipped[k + 1] == s[1..][k];
      forall g | Gap(g, false) ensures Gap(skipped + g, false) { LineGap(skipped, k + 1, g, false); }
    }
  }

  lemma EmptyGap()
    ensures Gap("", false)
  {
  }

  lemma SpaceSkipped(s: string, u: Unicode)
    requires s != "" && Blank(s[0])
    ensures Next(s, u) == Next(s[1..], u)
  {
    hide Punctuation, AfterLine, LexString, LexNumber, Keyword, UsizeOr, DigitRun, NumberRun, WordRun;
    SpaceExact(s[0]);
  }

  lemma CommentSkipped(s: string, u: Unicode)
    requires |s| >= 2 && s[0] == '/' && s[1] == '/'
    ensures Next(s, u) == Next(AfterLine(s[1..]), u)
  {
    hide Punctuation, IsSpace, AfterLine, LexString, LexNumber, Keyword, UsizeOr, DigitRun, NumberRun, WordRun;
    SlashNoSign();
    SpaceExact('/');
    assert !Blank('/') by { BlankNotSlash(); }
    var rest := s[1..];
    assert rest[0] == s[1];
  }

  lemma Associate3(a: string, b: string, c: string, d: string)
    ensures a + (b + c + d) == a + b + c + d
  {
  }

  /** The lexer reads exactly what is written: the next token of `s` is `t`, with `rest` behind it, if and
      only if `s` is a gap, a way to write `t`, and `rest`. */
  lemma LexExact(s: string, t: Token, rest: string, u: Unicode)
    requires t != EOF && t != Bad
    ensures Next(s, u) == (t, rest) <==> exists gap, word :: Lexeme(s, gap, t, word, rest, u)
  {
    hide Next, Written, Gap;
    if Next(s, u) == (t, rest) {
      var gap, word := LexSound(s, u);
      assert Lexeme(s, gap, t, word, rest, u);
    }
    forall gap, word | Lexeme(s, gap, t, word, rest, u) ensures Next(s, u) == (t, rest) {
      LexComplete(gap, t, word, rest, u);
    }
  }

  /** The source is at its end if and only if there is nothing but a gap ahead. */
  lemma {:induction false} EndExact(s: string, u: Unicode)
    ensures Next(s, u).0 == EOF <==> Gap(s, true)
    decreases |s|
  {
    hide Keyword, Written, Punctuation;
    if s != "" {
      SpaceExact(s[0]);
      if IsSpace(s[0]) {
        EndExact(s[1..], u);
        BlankNoSlash(s[0]);
      } else if |s| >= 2 && s[0] == '/' && s[1] == '/' {
        EndOfLine(s, u);
      } else {
        NotEnd(s, u);
      }
    }
  }

  lemma BlankNoSlash(c: char)
    requires Blank(c)
    ensures c != '/'
  {
  }

  lemma NotEnd(s: string, u: Unicode)
    requires AtToken(s)
    ensures Next(s, u).0 != EOF && !Gap(s, true)
  {
    hide Keyword, IsSpace;
    SpaceExact(s[0]);
    HereSound(s, u);
  }

  lemma {:induction false} EndOfLine(s: string, u: Unicode)
    requires |s| >= 2 && s[0] == '/' && s[1] == '/'
    ensures Next(s, u).0 == EOF <==> Gap(s, true)
    decreases |s|, 0
  {
    hide Next, Gap, IsSpace;
    CommentSkipped(s, u);
    var k := LineSound(s[1..]);
    assert s == [s[0]] + s[1..];
    if '\n' in s {
      assert '\n' in s[1..];
      var after := AfterLine(s[1..]);
      assert s[1..][k + 1..] == s[k + 2..];
      assert '\n' !in s[..k + 1] by { assert s[..k + 1] == [s[0]] + s[1..][..k]; }
      EndExact(after, u);
      GapOfLine(s, k + 1, true);
    } else {
      assert '\n' !in s[1..];
      NextOfNothing(u);
      assert Gap(s, true) by { LastGap(s); }
    }
  }

  lemma NextOfNothing(u: Unicode)
    ensures Next("", u).0 == EOF
  {
  }

  lemma LastGap(s: string)
    requires |s| >= 2 && s[0] == '/' && s[1] == '/' && '\n' !in s
    ensures Gap(s, true)
  {
  }

  lemma GapOfLine(s: string, k: nat, atEnd: bool)
    requires 2 <= k < |s| && s[0] == '/' && s[1] == '/' && s[k] == '\n' && '\n' !in s[..k]
    ensures Gap(s, atEnd) <==> Gap(s[k + 1..], atEnd)
  {
    BlankNotSlash();
    assert s[k] in s;
    assert Gap(s, atEnd) <==> exists j | 2 <= j < |s| :: GapFrom(s, j, atEnd);
    forall j | 2 <= j < |s| && j != k ensures !GapFrom(s, j, atEnd) {
      if j < k {
        assert s[j] == s[..k][j];
      } else {
        assert s[k] == s[..j][k];
      }
    }
    assert GapFrom(s, k, atEnd) <==> Gap(s[k + 1..], atEnd);
  }

  lemma BlankNotSlash()
    ensures !Blank('/')
  {
  }

  // ----- Synonyms -----

  /** Two ways to write a token can be exchanged: behind any piece of source and white space, and before
      any rest, the texts lex to the same tokens. */
  lemma Synonyms(before: string, ts: seq<Token>, blank: string, t: Token, word: string, word': string, rest: string, u: Unicode)
    requires Reads(before, ts, u) && IsBlank(blank)
    requires Written(t, word, rest, u) && Written(t, word', rest, u)
    ensures Stream(before + (blank + (word + rest)), u) == Stream(before + (blank + (word' + rest)), u)
  {
    hide Written, Next, Reads;
    WrittenNext(t, word, rest, u);
    WrittenNext(t, word', rest, u);
    ReadsAhead(before, ts, blank, word + rest, u);
    ReadsAhead(before, ts, blank, word' + rest, u);
    SameStream(word + rest, word' + rest, u);
  }

  lemma SameStream(s: string, s': string, u: Unicode)
    requires Next(s, u) == Next(s', u)
    ensures Stream(s, u) == Stream(s', u)
  {
    hide Next;
  }

  /** The word `lt` is the sign `<`. */
  lemma LtIsSign(before: string, ts: seq<Token>, blank: string, rest: string, u: Unicode)
    requires Reads(before, ts, u) && IsBlank(blank) && NoName(rest, u)
    ensures Stream(before + (blank + ("lt" + rest)), u) == Stream(before + (blank + ("<" + rest)), u)
    ensures Next("lt" + rest, u) == (Op(Lt), rest)
  {
    hide Next, Reads;
    WrittenNext(Op(Lt), "lt", rest, u);
    Synonyms(before, ts, blank, Op(Lt), "lt", "<", rest, u);
  }
}
