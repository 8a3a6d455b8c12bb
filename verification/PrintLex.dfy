/** Printed text lexes to the tokens of the expression it was printed from, or to a stream that departs
    from them at the first literal that is not printed faithfully. */
module PrintLexing {
  import opened Ast
  import opened Lexing
  import opened Printing
  import opened Relexing

  /** A token read in place of a literal that was not printed faithfully. */
  predicate Clash(found: Token, meant: Token) {
    || (meant.Text? && found.Text? && found != meant)
    || (meant.Integer? && found == Op(Sub))
  }

  predicate ClashAt(p: nat, found: seq<Token>, meant: seq<Token>) {
    p < |meant| && p < |found| && found[..p] == meant[..p] && Clash(found[p], meant[p])
  }

  predicate ClashBefore(p: nat, text: string, ts: seq<Token>, rest: string, u: Unicode) {
    ClashAt(p, Stream(text + rest, u), ts)
  }

  ghost predicate ClashesAt(p: nat, text: string, ts: seq<Token>, u: Unicode) {
    forall rest: string {:trigger ClashBefore(p, text, ts, rest, u)} | Delimits(rest) :: ClashBefore(p, text, ts, rest, u)
  }

  /** Whatever follows `text`, the tokens found part from `ts` at the same place. */
  ghost predicate Clashes(text: string, ts: seq<Token>, u: Unicode) {
    exists p: nat :: ClashesAt(p, text, ts, u)
  }

  /** `text` is read as `ts` if `ok`, and clashes with `ts` otherwise. */
  ghost predicate Lexes(text: string, ts: seq<Token>, ok: bool, u: Unicode) {
    if ok then Reads(text, ts, u) else Clashes(text, ts, u)
  }

  lemma ClashExtends(a: string, ta: seq<Token>, b: string, tb: seq<Token>, u: Unicode)
    requires Clashes(a, ta, u) && (b == "" || IsSpace(b[0]))
    ensures Clashes(a + b, ta + tb, u)
  {
    var p: nat :| ClashesAt(p, a, ta, u);
    forall rest: string | Delimits(rest) ensures ClashBefore(p, a + b, ta + tb, rest, u) {
      assert a + b + rest == a + (b + rest);
      assert Delimits(b + rest) by { if b == "" { assert b + rest == rest; } }
      assert ClashBefore(p, a, ta, b + rest, u);
      assert (ta + tb)[..p] == ta[..p];
    }
    assert ClashesAt(p, a + b, ta + tb, u);
  }

  lemma ClashShift(p: nat, ta: seq<Token>, found: seq<Token>, tb: seq<Token>)
    requires ClashAt(p, found, tb)
    ensures ClashAt(|ta| + p, ta + found, ta + tb)
  {
    assert (ta + found)[..|ta| + p] == ta + found[..p];
    assert (ta + tb)[..|ta| + p] == ta + tb[..p];
  }

  lemma ClashBehind(p: nat, a: string, ta: seq<Token>, blank: string, b: string, tb: seq<Token>, rest: string, u: Unicode)
    requires Reads(a, ta, u) && IsBlank(blank)
    requires ClashBefore(p, b, tb, rest, u)
    ensures ClashBefore(|ta| + p, a + blank + b, ta + tb, rest, u)
  {
    var after := b + rest;
    ClashShift(p, ta, Stream(after, u), tb);
    ReadsAhead(a, ta, blank, after, u);
    Associate(a, blank, b, rest);
  }

  lemma ClashFollows(a: string, ta: seq<Token>, blank: string, b: string, tb: seq<Token>, u: Unicode)
    requires Reads(a, ta, u) && Clashes(b, tb, u) && IsBlank(blank)
    ensures Clashes(a + blank + b, ta + tb, u)
  {
    var p: nat :| ClashesAt(p, b, tb, u);
    forall rest: string | Delimits(rest) ensures ClashBefore(|ta| + p, a + blank + b, ta + tb, rest, u) {
      assert ClashBefore(p, b, tb, rest, u);
      ClashBehind(p, a, ta, blank, b, tb, rest, u);
    }
    assert ClashesAt(|ta| + p, a + blank + b, ta + tb, u);
  }

  /** Two pieces of text with white space between them. */
  lemma LexesJoin(a: string, ta: seq<Token>, okA: bool, blank: string, b: string, tb: seq<Token>, okB: bool, u: Unicode)
    requires Lexes(a, ta, okA, u) && Lexes(b, tb, okB, u) && IsBlank(blank)
    ensures Lexes(a + blank + b, ta + tb, okA && okB, u)
  {
    if !okA {
      ClashExtends(a, ta, blank + b, tb, u);
      assert a + blank + b == a + (blank + b);
    } else if !okB {
      ClashFollows(a, ta, blank, b, tb, u);
    } else {
      ReadsJoin(a, ta, blank, b, tb, u);
    }
  }

  /** The minus sign of a negative integer is read as an operator. */
  lemma NegativeClashes(value: int, u: Unicode)
    requires value < 0
    ensures Clashes("-" + Digits(-value), [Token.Integer(value)], u)
  {
    var text, ts := "-" + Digits(-value), [Token.Integer(value)];
    forall rest: string | Delimits(rest) ensures ClashBefore(0, text, ts, rest, u) {
      assert text + rest == ['-'] + (Digits(-value) + rest);
      NextPunctuation('-', Digits(-value) + rest, u);
    }
    assert ClashesAt(0, text, ts, u);
  }

  /** Reading a string that starts with backslashes goes through them two at a time, and so never
      catches up with the string itself. */
  lemma {:induction false} BackslashesShrink(s: string, j: nat, rest: string)
    requires s != "" && s[0] == '\\' && 2 * j <= |s| && forall i | 0 <= i < 2 * j :: s[i] == '\\'
    ensures LexString(s[2 * j..] + "\"" + rest).0 != s[j..]
    decreases |s| - 2 * j
  {
    var raw := s[2 * j..] + "\"" + rest;
    assert s[j] == '\\';
    if 2 * j == |s| {
      assert raw[0] == '"';
    } else {
      assert raw[0] == s[2 * j];
      if s[2 * j] == '\\' {
        assert raw[1] == if 2 * j + 1 == |s| then '"' else s[2 * j + 1];
        if raw[1] == '\\' {
          BackslashesShrink(s, j + 1, rest);
          assert raw[2..] == s[2 * (j + 1)..] + "\"" + rest;
          assert s[j..] == [s[j]] + s[j + 1..];
        } else {
          assert LexString(raw).0[0] == Unescaped(raw[1]) != s[j..][0];
        }
      }
    }
  }

  lemma {:induction false} UnescapedDiffers(s: string, rest: string)
    requires !PlainText(s)
    ensures LexString(s + "\"" + rest).0 != s
    decreases |s|
  {
    var raw := s + "\"" + rest;
    assert raw[0] == s[0];
    if s[0] == '\\' {
      BackslashesShrink(s, 0, rest);
      assert s[0..] == s;
    } else if s[0] != '"' {
      assert s == [s[0]] + s[1..];
      UnescapedDiffers(s[1..], rest);
      assert raw[1..] == s[1..] + "\"" + rest;
    }
  }

  /** A string of `map` or `ju`. */
  lemma QuotedLexes(s: string, u: Unicode)
    ensures Lexes(Quoted(s), [Token.Text(s)], PlainText(s), u)
  {
    if PlainText(s) {
      ReadsPlainText(s, u);
    } else {
      forall rest: string | Delimits(rest) ensures ClashBefore(0, Quoted(s), [Token.Text(s)], rest, u) {
        var raw := s + "\"" + rest;
        assert Quoted(s) + rest == ['"'] + raw && (Quoted(s) + rest)[1..] == raw;
        UnescapedDiffers(s, rest);
        assert Next(Quoted(s) + rest, u) == (Token.Text(LexString(raw).0), LexString(raw).1);
      }
      assert ClashesAt(0, Quoted(s), [Token.Text(s)], u);
    }
  }

  /** A keyword or mark, and operands after single blanks. */
  lemma LexesUnder(h: string, t: Token, a: string, ta: seq<Token>, ok: bool, u: Unicode)
    requires Reads(h, [t], u) && Lexes(a, ta, ok, u)
    ensures Lexes(h + " " + a, [t] + ta, ok, u)
  {
    LexesJoin(h, [t], true, " ", a, ta, ok, u);
  }

  /** An expression is read back from its printed text, whatever its depth of indentation. */
  lemma {:induction false} PrintLexes(e: Expr, depth: nat, u: Unicode)
    requires Printable(e, u)
    ensures Lexes(Print(e, depth), Tokens(e), Plain(e), u)
    decreases e, 1
  {
    match e
    case Integer(value) => if value < 0 { NegativeClashes(value, u); } else { ReadsNumber(value, u); }
    case DeBruijn(idx) => ReadsIndexed('^', idx, u); assert "^" == ['^'];
    case Identifier(name) => ReadsName(name, u);
    case Text(text) => ReadsText(text, u);
    case Expand(name) =>
      ReadsName(name, u);
      ReadsAfter('`', Bang, name, [Token.Identifier(name)], u);
    case Prim(op, args) => if op.Seq? { SeqLexes(args, depth, u); } else { ReadsPrim(op, u); PrintAllLexes(PrimText(op), PrimTokens(op), true, args, depth, u); }
    case Apply(func, args) => ApplyLexes(func, args, depth, u);
    case Define(name, params, body, exported) => DefineLexes(name, params, body, exported, depth, u);
    case Shape(_, _, _) => NamesLex(e, depth, u);
    case Import(_, _, _) => NamesLex(e, depth, u);
    case Get(_, _, _) => LongLexes(e, depth, u);
    case Set(_, _, _, _) => LongLexes(e, depth, u);
    case If(_, _, _) => IfLexes(e, depth, u);
    case Let(_, _, _) => LetLexes(e, depth, u);
    case Map(_, _, _) => MapLexes(e, depth, u);
    case Metadata(_, _, _) => MapLexes(e, depth, u);
    case New(_, _) => NewLexes(e, depth, u);
    case Filter(_, _) => PairsLex(e, depth, u);
    case Trap(_, _) => PairsLex(e, depth, u);
    case Unpack(_, _) => PairsLex(e, depth, u);
    case _ => OperandsLex(e, depth, u);
  }

  lemma {:induction false} ApplyLexes(func: Expr, args: Exprs, depth: nat, u: Unicode)
    requires Printable(Expr.Apply(func, args), u)
    ensures Lexes(Print(Expr.Apply(func, args), depth), Tokens(Expr.Apply(func, args)), Plain(Expr.Apply(func, args)), u)
    decreases Expr.Apply(func, args), 0
  {
    var n := Length(args);
    ReadsIndexed('@', n, u);
    PrintLexes(func, depth, u);
    var h, th := ['@'] + Digits(n) + " " + Print(func, depth), [Token.Apply(n)] + Tokens(func);
    LexesUnder(['@'] + Digits(n), Token.Apply(n), Print(func, depth), Tokens(func), Plain(func), u);
    PrintAllLexes(h, th, Plain(func), args, depth, u);
  }

  lemma NamesLex(e: Expr, depth: nat, u: Unicode)
    requires Printable(e, u) && (e.Shape? || e.Import?)
    ensures Lexes(Print(e, depth), Tokens(e), Plain(e), u)
  {
    match e
    case Shape(name, fields, exported) =>
      ReadsPunctuation('#', Token.Shape, u);
      ReadsName(name, u);
      LexesUnder("#", Token.Shape, name, [Token.Identifier(name)], true, u);
      ReadsNames("#" + " " + name, [Token.Shape] + [Token.Identifier(name)], fields, u);
      var text, ts := "#" + " " + name + NamesText(fields), [Token.Shape] + [Token.Identifier(name)] + NamesTokens(fields);
      LexesExport(exported, text, ts, true, u);
    case Import(mod, symbol, _) =>
      ReadsPunctuation('I', Token.Import, u);
      if mod == "http" { ReadsLower("http", u); } else { ReadsName(mod, u); }
      ReadsName(symbol, u);
      LexesUnder("I", Token.Import, mod, [ModuleToken(mod)], true, u);
      ReadsJoin("I" + " " + mod, [Token.Import] + [ModuleToken(mod)], " ", symbol, [Token.Identifier(symbol)], u);
  }

  lemma LexesExport(exported: bool, text: string, ts: seq<Token>, ok: bool, u: Unicode)
    requires Lexes(text, ts, ok, u)
    ensures Lexes(ExportText(exported, text), ExportTokens(exported, ts), ok, u)
  {
    if exported {
      ReadsPunctuation('X', Export, u);
      LexesUnder("X", Export, text, ts, ok, u);
    }
  }

  lemma {:induction false} SeqLexes(args: Exprs, depth: nat, u: Unicode)
    requires AllPrintable(args, u) && Length(args) == 2
    ensures Lexes(Print(Prim(PrimOp.Seq, args), depth), Tokens(Prim(PrimOp.Seq, args)), Plain(Prim(PrimOp.Seq, args)), u)
    decreases args, 0
  {
    var a, b := args.head, args.tail.head;
    assert args.tail.tail == Nil by {
      assert Length(args) == 1 + Length(args.tail) && Length(args.tail) == 1 + Length(args.tail.tail);
    }
    PrintLexes(a, depth, u);
    PrintLexes(b, depth, u);
    ReadsPunctuation('.', Key(PrimOp.Seq), u);
    LexesUnder(".", Key(PrimOp.Seq), Print(a, depth), Tokens(a), Plain(a), u);
    IndentBlank(depth, "\n");
    LexesJoin("." + " " + Print(a, depth), [Key(PrimOp.Seq)] + Tokens(a), Plain(a), Line(depth), Print(b, depth), Tokens(b), Plain(b), u);
    assert AllPlain(args) == (Plain(a) && Plain(b)) by { assert AllPlain(args.tail) == (Plain(b) && AllPlain(Nil)); }
    assert TokensAll(args) == Tokens(a) + Tokens(b) by {
      assert TokensAll(args.tail) == Tokens(b) + TokensAll(Nil) == Tokens(b);
    }
    assert Tokens(Prim(PrimOp.Seq, args)) == [Key(PrimOp.Seq)] + Tokens(a) + Tokens(b);
  }

  lemma {:induction false} DefineLexes(name: string, params: seq<Param>, body: Expr, exported: bool, depth: nat, u: Unicode)
    requires Printable(Expr.Define(name, params, body, exported), u)
    ensures Lexes(Print(Expr.Define(name, params, body, exported), depth), Tokens(Expr.Define(name, params, body, exported)), Plain(Expr.Define(name, params, body, exported)), u)
    decreases body, 2
  {
    ReadsPunctuation(':', Token.Define, u);
    ReadsName(name, u);
    LexesUnder(":", Token.Define, name, [Token.Identifier(name)], true, u);
    var h, th := ":" + " " + name, [Token.Define] + [Token.Identifier(name)];
    ReadsParams(h, th, params, u);
    PrintLexes(body, depth + 1, u);
    IndentBlank(depth, "\n    ");
    LexesJoin(h + ParamsText(params), th + ParamsTokens(params), true, Block(depth), Print(body, depth + 1), Tokens(body), Plain(body), u);
    var text := h + ParamsText(params) + Block(depth) + Print(body, depth + 1);
    var ts := th + ParamsTokens(params) + Tokens(body);
    LexesExport(exported, text, ts, Plain(body), u);
  }

  lemma LexesThree(a: string, ta: seq<Token>, okA: bool, x: string, b: string, tb: seq<Token>, okB: bool,
                   y: string, c: string, tc: seq<Token>, okC: bool, u: Unicode)
    requires Lexes(a, ta, okA, u) && Lexes(b, tb, okB, u) && Lexes(c, tc, okC, u) && IsBlank(x) && IsBlank(y)
    ensures Lexes(a + x + b + y + c, ta + tb + tc, okA && okB && okC, u)
  {
    LexesJoin(a, ta, okA, x, b, tb, okB, u);
    LexesJoin(a + x + b, ta + tb, okA && okB, y, c, tc, okC, u);
  }

  lemma {:induction false} OperandsLex(e: Expr, depth: nat, u: Unicode)
    requires Printable(e, u)
    requires e.Move? || e.Borrow? || e.MutBorrow? || e.Pack?
    ensures Lexes(Print(e, depth), Tokens(e), Plain(e), u)
    decreases e, 0
  {
    match e
    case Move(inner) => ReadsPunctuation('>', Token.Move, u); UnaryLexes(">", Token.Move, inner, depth, u);
    case Borrow(inner) => ReadsPunctuation('$', Token.Borrow, u); UnaryLexes("$", Token.Borrow, inner, depth, u);
    case MutBorrow(inner) => ReadsPunctuation('~', Token.MutBorrow, u); UnaryLexes("~", Token.MutBorrow, inner, depth, u);
    case Pack(inst) => ReadsLower("jp", u); UnaryLexes("jp", Token.Pack(1), inst, depth, u);
  }

  lemma {:induction false} PairsLex(e: Expr, depth: nat, u: Unicode)
    requires Printable(e, u) && (e.Filter? || e.Trap? || e.Unpack?)
    ensures Lexes(Print(e, depth), Tokens(e), Plain(e), u)
    decreases e, 0
  {
    match e
    case Filter(inst, func) =>
      ReadsLower("flt", u);
      PrintLexes(func, depth, u);
      BinaryLexes("flt", Token.Filter, inst, Print(func, depth), Tokens(func), Plain(func), depth, u);
    case Trap(attempt, fallback) =>
      ReadsTrap(u);
      PrintLexes(fallback, depth, u);
      BinaryLexes("^", Token.Trap, attempt, Print(fallback, depth), Tokens(fallback), Plain(fallback), depth, u);
    case Unpack(json, shape) =>
      ReadsLower("ju", u);
      QuotedLexes(shape, u);
      BinaryLexes("ju", Token.Pack(2), json, Quoted(shape), [Token.Text(shape)], PlainText(shape), depth, u);
  }

  lemma {:induction false} NewLexes(e: Expr, depth: nat, u: Unicode)
    requires Printable(e, u) && e.New?
    ensures Lexes(Print(e, depth), Tokens(e), Plain(e), u)
    decreases e, 0
  {
    var New(shape, count) := e;
    ReadsPunctuation('N', Token.New, u);
    ReadsName(shape, u);
    PrintLexes(count, depth, u);
    LexesThree("N", [Token.New], true, " ", shape, [Token.Identifier(shape)], true, " ", Print(count, depth), Tokens(count), Plain(count), u);
  }

  lemma {:induction false} UnaryLexes(h: string, t: Token, inner: Expr, depth: nat, u: Unicode)
    requires Reads(h, [t], u) && Printable(inner, u)
    ensures Lexes(h + " " + Print(inner, depth), [t] + Tokens(inner), Plain(inner), u)
    decreases inner, 2
  {
    PrintLexes(inner, depth, u);
    LexesUnder(h, t, Print(inner, depth), Tokens(inner), Plain(inner), u);
  }

  lemma {:induction false} BinaryLexes(h: string, t: Token, inner: Expr, b: string, tb: seq<Token>, ok: bool, depth: nat, u: Unicode)
    requires Reads(h, [t], u) && Printable(inner, u) && Lexes(b, tb, ok, u)
    ensures Lexes(h + " " + Print(inner, depth) + " " + b, [t] + Tokens(inner) + tb, Plain(inner) && ok, u)
    decreases inner, 3
  {
    UnaryLexes(h, t, inner, depth, u);
    LexesJoin(h + " " + Print(inner, depth), [t] + Tokens(inner), Plain(inner), " ", b, tb, ok, u);
  }

  lemma {:induction false} LongLexes(e: Expr, depth: nat, u: Unicode)
    requires Printable(e, u)
    requires e.Get? || e.Set?
    ensures Lexes(Print(e, depth), Tokens(e), Plain(e), u)
    decreases e, 0
  {
    match e
    case Get(inst, field, index) =>
      ReadsPunctuation('G', Token.Get, u);
      GetLexes("G", Token.Get, inst, field, index, depth, u, e);
    case Set(inst, field, index, val) =>
      ReadsPunctuation('S', Token.Set, u);
      GetLexes("S", Token.Set, inst, field, index, depth, u, e);
      PrintLexes(val, depth, u);
      var h, th := "S" + " " + Print(inst, depth) + " " + field + " " + Print(index, depth),
          [Token.Set] + Tokens(inst) + [Token.Identifier(field)] + Tokens(index);
      LexesJoin(h, th, Plain(inst) && Plain(index), " ", Print(val, depth), Tokens(val), Plain(val), u);
  }

  lemma {:induction false} MapLexes(e: Expr, depth: nat, u: Unicode)
    requires Printable(e, u)
    requires e.Map? || e.Metadata?
    ensures Lexes(Print(e, depth), Tokens(e), Plain(e), u)
    decreases e, 0
  {
    match e
    case Map(inst, field, func) =>
      ReadsLower("map", u);
      QuotedLexes(field, u);
      PrintLexes(func, depth, u);
      BinaryLexes("map", Token.Map, inst, Quoted(field), [Token.Text(field)], PlainText(field), depth, u);
      var h, th := "map" + " " + Print(inst, depth) + " " + Quoted(field), [Token.Map] + Tokens(inst) + [Token.Text(field)];
      LexesJoin(h, th, Plain(inst) && PlainText(field), " ", Print(func, depth), Tokens(func), Plain(func), u);
    case Metadata(tag, val, target) =>
      ReadsPunctuation('M', Token.Metadata, u);
      PrintLexes(val, depth, u);
      PrintLexes(target, depth, u);
      BinaryLexes("M", Token.Metadata, tag, Print(val, depth), Tokens(val), Plain(val), depth, u);
      var h, th := "M" + " " + Print(tag, depth) + " " + Print(val, depth), [Token.Metadata] + Tokens(tag) + Tokens(val);
      LexesJoin(h, th, Plain(tag) && Plain(val), " ", Print(target, depth), Tokens(target), Plain(target), u);
  }

  lemma {:induction false} IfLexes(e: Expr, depth: nat, u: Unicode)
    requires Printable(e, u) && e.If?
    ensures Lexes(Print(e, depth), Tokens(e), Plain(e), u)
    decreases e, 0
  {
    var If(cond, thn, els) := e;
    ReadsPunctuation('?', Question, u);
    UnaryLexes("?", Question, cond, depth, u);
    PrintLexes(thn, depth + 1, u);
    PrintLexes(els, depth + 1, u);
    IndentBlank(depth, "\n    ");
    var x := Block(depth);
    LexesThree("?" + " " + Print(cond, depth), [Question] + Tokens(cond), Plain(cond), x, Print(thn, depth + 1), Tokens(thn), Plain(thn),
               x, Print(els, depth + 1), Tokens(els), Plain(els), u);
  }

  lemma {:induction false} LetLexes(e: Expr, depth: nat, u: Unicode)
    requires Printable(e, u) && e.Let?
    ensures Lexes(Print(e, depth), Tokens(e), Plain(e), u)
    decreases e, 0
  {
    var Let(name, val, body) := e;
    ReadsPunctuation('L', Token.Let, u);
    ReadsName(name, u);
    PrintLexes(val, depth, u);
    PrintLexes(body, depth, u);
    IndentBlank(depth, "\n");
    LexesThree("L", [Token.Let], true, " ", name, [Token.Identifier(name)], true, " ", Print(val, depth), Tokens(val), Plain(val), u);
    var h, th := "L" + " " + name + " " + Print(val, depth), [Token.Let] + [Token.Identifier(name)] + Tokens(val);
    LexesJoin(h, th, Plain(val), Line(depth), Print(body, depth), Tokens(body), Plain(body), u);
  }

  lemma {:induction false} GetLexes(h: string, t: Token, inst: Expr, field: string, index: Expr, depth: nat, u: Unicode, whole: Expr)
    requires inst < whole && index < whole
    requires Reads(h, [t], u) && Printable(inst, u) && Printable(index, u) && ValidName(field, u)
    ensures Lexes(h + " " + Print(inst, depth) + " " + field + " " + Print(index, depth),
                  [t] + Tokens(inst) + [Token.Identifier(field)] + Tokens(index), Plain(inst) && Plain(index), u)
    decreases whole, -1
  {
    ReadsName(field, u);
    PrintLexes(index, depth, u);
    BinaryLexes(h, t, inst, field, [Token.Identifier(field)], true, depth, u);
    LexesJoin(h + " " + Print(inst, depth) + " " + field, [t] + Tokens(inst) + [Token.Identifier(field)], Plain(inst),
              " ", Print(index, depth), Tokens(index), Plain(index), u);
  }

  /** Operands, each after a blank. */
  lemma {:induction false} PrintAllLexes(h: string, th: seq<Token>, ok: bool, es: Exprs, depth: nat, u: Unicode)
    requires Lexes(h, th, ok, u) && AllPrintable(es, u)
    ensures Lexes(h + PrintAll(es, depth), th + TokensAll(es), ok && AllPlain(es), u)
    decreases es
  {
    match es
    case Nil =>
      assert h + PrintAll(es, depth) == h && th + TokensAll(es) == th;
    case Cons(head, tail) =>
      PrintLexes(head, depth, u);
      LexesJoin(h, th, ok, " ", Print(head, depth), Tokens(head), Plain(head), u);
      PrintAllLexes(h + " " + Print(head, depth), th + Tokens(head), ok && Plain(head), tail, depth, u);
      assert h + PrintAll(es, depth) == h + " " + Print(head, depth) + PrintAll(tail, depth);
      assert th + TokensAll(es) == th + Tokens(head) + TokensAll(tail);
  }
}
