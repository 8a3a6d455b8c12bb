/** Printed text lexes back to the tokens of the expression it was printed from. */
module Relexing {
  import opened Ast
  import opened Lexing
  import opened Printing
  import opened Wrappers

  /** What may follow a printed expression: white space or the end. */
  predicate Delimits(rest: string) {
    rest == "" || IsSpace(rest[0])
  }

  predicate IsBlank(s: string) {
    s != "" && forall i | 0 <= i < |s| :: IsSpace(s[i])
  }

  /** `text` lexes as `ts` wherever white space or the end follows. */
  ghost predicate Reads(text: string, ts: seq<Token>, u: Unicode) {
    forall rest: string {:trigger ReadsBefore(text, ts, rest, u)} | Delimits(rest) :: ReadsBefore(text, ts, rest, u)
  }

  predicate ReadsBefore(text: string, ts: seq<Token>, rest: string, u: Unicode) {
    Stream(text + rest, u) == ts + Stream(rest, u)
  }

  lemma {:induction false} SkipBlank(blank: string, s: string, u: Unicode)
    requires forall i | 0 <= i < |blank| :: IsSpace(blank[i])
    ensures Stream(blank + s, u) == Stream(s, u)
    decreases |blank|
  {
    if blank == "" {
      assert blank + s == s;
    } else {
      assert (blank + s)[1..] == blank[1..] + s;
      assert Next(blank + s, u) == Next(blank[1..] + s, u);
      SkipBlank(blank[1..], s, u);
      assert Stream(blank + s, u) == Stream(blank[1..] + s, u);
    }
  }

  lemma ReadsAhead(a: string, ta: seq<Token>, blank: string, after: string, u: Unicode)
    requires Reads(a, ta, u) && IsBlank(blank)
    ensures Stream(a + (blank + after), u) == ta + Stream(after, u)
  {
    assert Delimits(blank + after);
    assert ReadsBefore(a, ta, blank + after, u);
    SkipBlank(blank, after, u);
  }

  lemma JoinBefore(a: string, ta: seq<Token>, blank: string, b: string, tb: seq<Token>, rest: string, u: Unicode)
    requires Reads(a, ta, u) && IsBlank(blank) && ReadsBefore(b, tb, rest, u)
    ensures ReadsBefore(a + blank + b, ta + tb, rest, u)
  {
    hide Stream, Delimits, IsBlank;
    ReadsAhead(a, ta, blank, b + rest, u);
    Associate(a, blank, b, rest);
    assert ta + (tb + Stream(rest, u)) == ta + tb + Stream(rest, u);
  }

  lemma Associate(a: string, blank: string, b: string, rest: string)
    ensures a + blank + b + rest == a + (blank + (b + rest))
  {
  }

  /** Two pieces of text with white space between them. */
  lemma ReadsJoin(a: string, ta: seq<Token>, blank: string, b: string, tb: seq<Token>, u: Unicode)
    requires Reads(a, ta, u) && Reads(b, tb, u) && IsBlank(blank)
    ensures Reads(a + blank + b, ta + tb, u)
  {
    forall rest: string | Delimits(rest) ensures ReadsBefore(a + blank + b, ta + tb, rest, u) {
      assert ReadsBefore(b, tb, rest, u);
      JoinBefore(a, ta, blank, b, tb, rest, u);
    }
  }

  lemma PunctuationNotSpace(c: char)
    requires Punctuation(c).Some?
    ensures !IsSpace(c) && Punctuation(c).value != EOF && Punctuation(c).value != Bad
  {
  }

  lemma NextPunctuation(c: char, s: string, u: Unicode)
    requires Punctuation(c).Some?
    ensures Stream([c] + s, u) == [Punctuation(c).value] + Stream(s, u)
  {
    PunctuationNotSpace(c);
    assert ([c] + s)[1..] == s;
    assert Next([c] + s, u) == (Punctuation(c).value, s);
  }

  /** A token that is read whatever follows. */
  lemma ReadsAfter(c: char, t: Token, text: string, ts: seq<Token>, u: Unicode)
    requires Punctuation(c) == Some(t) && Reads(text, ts, u)
    ensures Reads([c] + text, [t] + ts, u)
  {
    forall rest: string | Delimits(rest) ensures ReadsBefore([c] + text, [t] + ts, rest, u) {
      assert ReadsBefore(text, ts, rest, u);
      assert [c] + text + rest == [c] + (text + rest);
      NextPunctuation(c, text + rest, u);
    }
  }

  lemma ReadsEmpty(u: Unicode)
    ensures Reads("", [], u)
  {
    forall rest: string | Delimits(rest) ensures ReadsBefore("", [], rest, u) {
      assert "" + rest == rest;
    }
  }

  lemma ReadsPunctuation(c: char, t: Token, u: Unicode)
    requires Punctuation(c) == Some(t)
    ensures Reads([c], [t], u)
  {
    ReadsEmpty(u);
    ReadsAfter(c, t, "", [], u);
    assert [c] + "" == [c];
    assert [t] + [] == [t];
  }

  lemma ReadsOne(text: string, t: Token, u: Unicode)
    requires t != EOF && t != Bad
    requires forall rest: string | Delimits(rest) :: Next(text + rest, u) == (t, rest)
    ensures Reads(text, [t], u)
  {
    forall rest: string | Delimits(rest) ensures ReadsBefore(text, [t], rest, u) {
      assert Next(text + rest, u) == (t, rest);
    }
  }

  lemma {:induction false} WordRunIs(w: string, rest: string, u: Unicode)
    requires Delimits(rest) && forall i | 0 <= i < |w| :: IsWordChar(w[i], u)
    ensures WordRun(w + rest, u) == |w|
  {
    if w == "" {
      assert w + rest == rest;
    } else {
      assert (w + rest)[1..] == w[1..] + rest;
      WordRunIs(w[1..], rest, u);
    }
  }

  lemma {:induction false} DigitRunIs(w: string, rest: string)
    requires Delimits(rest) && AllDigits(w)
    ensures DigitRun(w + rest) == NumberRun(w + rest) == |w|
  {
    if w == "" {
      assert w + rest == rest;
    } else {
      assert (w + rest)[1..] == w[1..] + rest;
      DigitRunIs(w[1..], rest);
    }
  }

  lemma ReadsNumber(n: nat, u: Unicode)
    requires n < I64_LIMIT
    ensures Reads(Digits(n), [Token.Integer(n)], u)
  {
    var w := Digits(n);
    forall rest: string | Delimits(rest) ensures Next(w + rest, u) == (Token.Integer(n), rest) {
      DigitRunIs(w, rest);
      assert (w + rest)[..|w|] == w && (w + rest)[|w|..] == rest;
      assert IsDigit(w[0]) && (w + rest)[0] == w[0];
      DigitNotPunctuation(w[0]);
    }
    ReadsOne(w, Token.Integer(n), u);
  }

  lemma DigitNotPunctuation(c: char)
    requires IsDigit(c)
    ensures Punctuation(c).None? && !IsSpace(c) && c != '@' && c != '^' && c != '/' && c != '"'
  {
  }

  /** `@n` and `^n`. */
  lemma ReadsIndexed(c: char, n: nat, u: Unicode)
    requires n < USIZE_LIMIT && (c == '@' || c == '^')
    ensures Reads([c] + Digits(n), [if c == '@' then Token.Apply(n) else Token.DeBruijn(n)], u)
  {
    var w, t := Digits(n), if c == '@' then Token.Apply(n) else Token.DeBruijn(n);
    forall rest: string | Delimits(rest) ensures Next([c] + w + rest, u) == (t, rest) {
      DigitRunIs(w, rest);
      assert ([c] + w + rest)[1..] == w + rest;
      assert (w + rest)[..|w|] == w && (w + rest)[|w|..] == rest;
      assert Punctuation(c).None? && !IsSpace(c);
    }
    ReadsOne([c] + w, t, u);
  }

  lemma ReadsTrap(u: Unicode)
    ensures Reads("^", [Token.Trap], u)
  {
    assert Punctuation('^').None? && !IsSpace('^');
    forall rest: string | Delimits(rest) ensures Next("^" + rest, u) == (Token.Trap, rest) {
      DigitRunIs("", rest);
      assert "" + rest == rest;
      assert ("^" + rest)[0] == '^' && ("^" + rest)[1..] == rest;
      assert DigitRun(rest) == 0 && rest[0..] == rest;
    }
    ReadsOne("^", Token.Trap, u);
  }

  lemma ReadsDiv(u: Unicode)
    ensures Reads("/", [Op(Div)], u)
  {
    forall rest: string | Delimits(rest) ensures Next("/" + rest, u) == (Op(Div), rest) {
      assert ("/" + rest)[1..] == rest;
    }
    ReadsOne("/", Op(Div), u);
  }

  lemma {:induction false} LexEscaped(s: string, rest: string)
    ensures LexString(Escaped(s) + "\"" + rest) == (s, rest)
    decreases |s|
  {
    if s == "" {
      assert Escaped(s) + "\"" + rest == "\"" + rest;
    } else {
      LexEscaped(s[1..], rest);
      var tail := Escaped(s[1..]) + "\"" + rest;
      var text := Escaped(s) + "\"" + rest;
      assert text == EscapedChar(s[0]) + tail;
      if |EscapedChar(s[0])| == 2 {
        assert text[2..] == tail;
      } else {
        assert text[1..] == tail;
      }
      assert s == [s[0]] + s[1..];
    }
  }

  lemma {:induction false} PlainEscaped(s: string, rest: string)
    requires PlainText(s)
    ensures LexString(s + "\"" + rest) == (s, rest)
    decreases |s|
  {
    if s == "" {
      assert s + "\"" + rest == "\"" + rest;
    } else {
      PlainEscaped(s[1..], rest);
      assert (s + "\"" + rest)[1..] == s[1..] + "\"" + rest;
      assert s[0] in s;
      assert s == [s[0]] + s[1..];
    }
  }

  lemma ReadsQuoted(raw: string, s: string, u: Unicode)
    requires forall rest: string :: LexString(raw + "\"" + rest) == (s, rest)
    ensures Reads(Quoted(raw), [Token.Text(s)], u)
  {
    forall rest: string | Delimits(rest) ensures Next(Quoted(raw) + rest, u) == (Token.Text(s), rest) {
      assert (Quoted(raw) + rest)[1..] == raw + "\"" + rest;
    }
    ReadsOne(Quoted(raw), Token.Text(s), u);
  }

  lemma ReadsText(s: string, u: Unicode)
    ensures Reads(Quoted(Escaped(s)), [Token.Text(s)], u)
  {
    forall rest: string ensures LexString(Escaped(s) + "\"" + rest) == (s, rest) { LexEscaped(s, rest); }
    ReadsQuoted(Escaped(s), s, u);
  }

  lemma ReadsPlainText(s: string, u: Unicode)
    requires PlainText(s)
    ensures Reads(Quoted(s), [Token.Text(s)], u)
  {
    forall rest: string ensures LexString(s + "\"" + rest) == (s, rest) { PlainEscaped(s, rest); }
    ReadsQuoted(s, s, u);
  }

  /** A word, be it a name or a keyword. */
  lemma ReadsWord(w: string, u: Unicode)
    requires w != "" && (IsLetter(w[0]) || w[0] == '_') && Punctuation(w[0]).None?
    requires forall i | 0 <= i < |w| :: IsWordChar(w[i], u)
    ensures Reads(w, [Keyword(w)], u)
  {
    forall rest: string | Delimits(rest) ensures Next(w + rest, u) == (Keyword(w), rest) {
      var s := w + rest;
      WordRunIs(w, rest, u);
      assert s[..|w|] == w && s[|w|..] == rest;
      assert s[0] == w[0] && !IsSpace(w[0]) && !IsDigit(w[0]);
    }
    ReadsOne(w, Keyword(w), u);
  }

  lemma ReadsName(w: string, u: Unicode)
    requires ValidName(w, u)
    ensures Reads(w, [Token.Identifier(w)], u)
  {
    ReadsWord(w, u);
  }

  lemma ReadsOp(op: BinOp, u: Unicode)
    ensures Reads(OpText(op), [Op(op)], u)
  {
    match op
    case Div => ReadsDiv(u);
    case Gt => ReadsWord("gt", u);
    case BitXor => ReadsWord("xor", u);
    case _ =>
      var c := OpText(op)[0];
      assert OpText(op) == [c];
      ReadsPunctuation(c, Op(op), u);
  }

  lemma ReadsPair(h: string, t: Token, op: BinOp, u: Unicode)
    requires Reads(h, [t], u)
    ensures Reads(h + " " + OpText(op), [t] + [Op(op)], u)
  {
    ReadsOp(op, u);
    ReadsJoin(h, [t], " ", OpText(op), [Op(op)], u);
  }

  predicate IsWordPrim(op: PrimOp) {
    match op
    case Binary(_) | TimeArith(_) | MoneyArith(_) | MoneyStr | Read | Write | Seq | Panic => false
    case _ => true
  }

  lemma PrimWord(op: PrimOp)
    requires IsWordPrim(op)
    ensures |PrimText(op)| > 0 && forall i | 0 <= i < |PrimText(op)| :: 'a' <= PrimText(op)[i] <= 'z'
  {
  }

  lemma PrimKeyword(op: PrimOp)
    requires IsWordPrim(op)
    ensures Keyword(PrimText(op)) == Key(op)
  {
  }

  lemma ReadsWordPrim(op: PrimOp, u: Unicode)
    requires IsWordPrim(op)
    ensures Reads(PrimText(op), [Key(op)], u)
  {
    PrimWord(op);
    PrimKeyword(op);
    ReadsLower(PrimText(op), u);
  }

  lemma ReadsLower(w: string, u: Unicode)
    requires w != "" && forall i | 0 <= i < |w| :: 'a' <= w[i] <= 'z'
    ensures Reads(w, [Keyword(w)], u)
  {
    assert Punctuation(w[0]).None?;
    ReadsWord(w, u);
  }

  lemma ReadsPrim(op: PrimOp, u: Unicode)
    ensures Reads(PrimText(op), PrimTokens(op), u)
  {
    if IsWordPrim(op) {
      ReadsWordPrim(op, u);
      assert PrimTokens(op) == [Key(op)];
    } else {
      match op
      case Binary(b) => ReadsOp(b, u);
      case TimeArith(b) => ReadsWordPrim(TimeNow, u); ReadsPair("tn", Key(TimeNow), b, u);
      case MoneyArith(b) => ReadsPunctuation('%', Money, u); ReadsPair("%", Money, b, u);
      case MoneyStr => ReadsMoneyStr(u);
      case Read => ReadsPunctuation('(', Key(op), u);
      case Write => ReadsPunctuation(')', Key(op), u);
      case Seq => ReadsPunctuation('.', Key(op), u);
      case Panic => ReadsPunctuation('!', Key(op), u);
    }
  }

  lemma ReadsMoneyStr(u: Unicode)
    ensures Reads("%" + " " + "str", [Money] + [Key(Str)], u)
  {
    ReadsPunctuation('%', Money, u);
    ReadsWordPrim(Str, u);
    ReadsJoin("%", [Money], " ", "str", [Key(Str)], u);
  }

  lemma IndentBlank(depth: nat, lead: string)
    requires IsBlank(lead)
    ensures IsBlank(lead + Indent(depth))
    decreases depth
  {
    if depth == 0 {
      assert lead + Indent(depth) == lead;
    } else {
      assert IsBlank(lead + "    ");
      IndentBlank(depth - 1, lead + "    ");
      assert lead + Indent(depth) == lead + "    " + Indent(depth - 1);
    }
  }

  lemma {:induction false} ReadsNames(h: string, th: seq<Token>, names: seq<string>, u: Unicode)
    requires Reads(h, th, u) && forall f | f in names :: ValidName(f, u)
    ensures Reads(h + NamesText(names), th + NamesTokens(names), u)
    decreases |names|
  {
    if names == [] {
      assert h + NamesText(names) == h && th + NamesTokens(names) == th;
    } else {
      ReadsName(names[0], u);
      ReadsJoin(h, th, " ", names[0], [Token.Identifier(names[0])], u);
      ReadsNames(h + " " + names[0], th + [Token.Identifier(names[0])], names[1..], u);
      assert h + NamesText(names) == h + " " + names[0] + NamesText(names[1..]);
      assert th + NamesTokens(names) == th + [Token.Identifier(names[0])] + NamesTokens(names[1..]);
    }
  }

  lemma NextMarked(name: string, rest: string, u: Unicode)
    requires ValidName(name, u)
    ensures Next(name + "`" + rest, u) == (Token.Identifier(name), ['`'] + rest)
  {
    var s := name + "`" + rest;
    MarkedRun(name, rest, u);
    assert s[..|name|] == name && s[|name|..] == ['`'] + rest;
    assert s[0] == name[0] && !IsSpace(s[0]) && !IsDigit(s[0]);
  }

  lemma MarkedBefore(name: string, rest: string, u: Unicode)
    requires ValidName(name, u)
    ensures ReadsBefore(name + "`", [Token.Identifier(name)] + [Bang], rest, u)
  {
    var after := Stream(rest, u);
    NextMarked(name, rest, u);
    NextPunctuation('`', rest, u);
    assert [Token.Identifier(name)] + ([Bang] + after) == [Token.Identifier(name)] + [Bang] + after;
  }

  /** A mark that follows a name at once. */
  lemma ReadsMarked(name: string, u: Unicode)
    requires ValidName(name, u)
    ensures Reads(name + "`", [Token.Identifier(name)] + [Bang], u)
  {
    forall rest: string | Delimits(rest) ensures ReadsBefore(name + "`", [Token.Identifier(name)] + [Bang], rest, u) {
      MarkedBefore(name, rest, u);
    }
  }

  lemma {:induction false} MarkedRun(w: string, rest: string, u: Unicode)
    requires forall i | 0 <= i < |w| :: IsWordChar(w[i], u)
    ensures WordRun(w + "`" + rest, u) == |w|
    decreases |w|
  {
    if w == "" {
      assert (w + "`" + rest)[0] == '`' && !IsWordChar('`', u);
    } else {
      assert (w + "`" + rest)[1..] == w[1..] + "`" + rest;
      MarkedRun(w[1..], rest, u);
    }
  }

  lemma {:induction false} ReadsParams(h: string, th: seq<Token>, params: seq<Param>, u: Unicode)
    requires Reads(h, th, u) && forall p | p in params :: ValidName(p.name, u)
    ensures Reads(h + ParamsText(params), th + ParamsTokens(params), u)
    decreases |params|
  {
    if params == [] {
      assert h + ParamsText(params) == h && th + ParamsTokens(params) == th;
    } else {
      var p := params[0];
      var text, ts := p.name + (if p.expand then "`" else ""), [Token.Identifier(p.name)] + (if p.expand then [Bang] else []);
      if p.expand {
        ReadsMarked(p.name, u);
      } else {
        ReadsName(p.name, u);
        assert text == p.name && ts == [Token.Identifier(p.name)];
      }
      ReadsJoin(h, th, " ", text, ts, u);
      ReadsParams(h + " " + text, th + ts, params[1..], u);
      assert h + ParamsText(params) == h + " " + text + ParamsText(params[1..]);
      assert th + ParamsTokens(params) == th + ts + ParamsTokens(params[1..]);
    }
  }
}
