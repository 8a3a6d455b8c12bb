/** The pretty-printer (`src/compiler/ast/display.rs`), and the tokens its output lexes to. */
module Printing {
  import opened Ast
  import opened Lexing
  import opened Wrappers

  function Digits(n: nat): (s: string)
    ensures s != "" && AllDigits(s) && NatOf(s) == n
  {
    var last := ['0' + (n % 10) as char];
    if n < 10 then last
    else
      var s := Digits(n / 10) + last;
      assert s[..|s| - 1] == Digits(n / 10);
      s
  }

  function EscapedChar(c: char): string {
    match c
    case '\\' => "\\\\"
    case '"' => "\\\""
    case '\n' => "\\n"
    case '\t' => "\\t"
    case '\r' => "\\r"
    case _ => [c]
  }

  /** `escape_string` */
  function Escaped(s: string): string {
    if s == "" then "" else EscapedChar(s[0]) + Escaped(s[1..])
  }

  /** The loop of `escape_string`. */
  method EscapeString(s: string) returns (escaped: string)
    ensures escaped == Escaped(s)
  {
    escaped := "";
    assert s[0..] == s;
    for i := 0 to |s|
      invariant escaped + Escaped(s[i..]) == Escaped(s)
    {
      assert s[i..][1..] == s[i + 1..];
      assert escaped + (EscapedChar(s[i]) + Escaped(s[i + 1..])) == escaped + EscapedChar(s[i]) + Escaped(s[i + 1..]);
      match s[i] {
        case '\\' => escaped := escaped + "\\\\";
        case '"' => escaped := escaped + "\\\"";
        case '\n' => escaped := escaped + "\\n";
        case '\t' => escaped := escaped + "\\t";
        case '\r' => escaped := escaped + "\\r";
        case c => escaped := escaped + [c];
      }
    }
    assert escaped + "" == escaped;
  }

  function Quoted(s: string): string {
    "\"" + s + "\""
  }

  /** `format_token` */
  function OpText(op: BinOp): string {
    match op
    case Add => "+"
    case Sub => "-"
    case Mul => "*"
    case Div => "/"
    case Eq => "="
    case Lt => "<"
    case Gt => "gt"
    case BitAnd => "&"
    case BitOr => "|"
    case BitXor => "xor"
  }

  function PrimText(op: PrimOp): string {
    match op
    case Binary(b) => OpText(b)
    case TimeArith(b) => "tn" + " " + OpText(b)
    case MoneyArith(b) => "%" + " " + OpText(b)
    case MoneyStr => "%" + " " + "str"
    case Len => "sl"
    case Cat => "sc"
    case SubStr => "ss"
    case Loc => "sf"
    case Reg => "sr"
    case Read => "("
    case Write => ")"
    case Str => "str"
    case Split => "sp"
    case TimeNow => "tn"
    case TimeNano => "tns"
    case TimeZone => "tz"
    case TimeGet => "tg"
    case TimeSet => "ts"
    case Env => "env"
    case Seq => "."
    case OtelEmit => "oe"
    case Panic => "!"
    case HttpClient => "http"
    case HttpServer => "srv"
    case HttpHeader => "hdr"
    case FileOpen => "fo"
  }

  function Indent(depth: nat): string {
    if depth == 0 then "" else "    " + Indent(depth - 1)
  }

  function ParamText(p: Param): string {
    " " + p.name + if p.expand then "`" else ""
  }

  function ParamsText(params: seq<Param>): string {
    if params == [] then "" else ParamText(params[0]) + ParamsText(params[1..])
  }

  function NamesText(names: seq<string>): string {
    if names == [] then "" else " " + names[0] + NamesText(names[1..])
  }

  /** A line break at the same depth, and one at the next. */
  function Line(depth: nat): string { "\n" + Indent(depth) }

  function Block(depth: nat): string { "\n    " + Indent(depth) }

  function ExportText(exported: bool, text: string): string {
    if exported then "X" + " " + text else text
  }

  /** `PrettyExpr::fmt` */
  function Print(e: Expr, depth: nat): string
    decreases e
  {
    match e
    case Integer(value) => if value < 0 then "-" + Digits(-value) else Digits(value)
    case DeBruijn(idx) => ['^'] + Digits(idx)
    case Identifier(name) => name
    case Text(text) => Quoted(Escaped(text))
    case Expand(name) => ['`'] + name
    case Prim(op, args) =>
      if op.Seq? && args.Cons? && args.tail.Cons?
      then "." + " " + Print(args.head, depth) + Line(depth) + Print(args.tail.head, depth)
      else PrimText(op) + PrintAll(args, depth)
    case Apply(func, args) => ['@'] + Digits(Length(args)) + " " + Print(func, depth) + PrintAll(args, depth)
    case Move(inner) => ">" + " " + Print(inner, depth)
    case Borrow(inner) => "$" + " " + Print(inner, depth)
    case MutBorrow(inner) => "~" + " " + Print(inner, depth)
    case Define(name, params, body, exported) =>
      ExportText(exported, ":" + " " + name + ParamsText(params) + Block(depth) + Print(body, depth + 1))
    case Shape(name, fields, exported) => ExportText(exported, "#" + " " + name + NamesText(fields))
    case New(shape, count) => "N" + " " + shape + " " + Print(count, depth)
    case Get(inst, field, index) => "G" + " " + Print(inst, depth) + " " + field + " " + Print(index, depth)
    case Set(inst, field, index, val) =>
      "S" + " " + Print(inst, depth) + " " + field + " " + Print(index, depth) + " " + Print(val, depth)
    case If(cond, thn, els) =>
      "?" + " " + Print(cond, depth) + Block(depth) + Print(thn, depth + 1) + Block(depth) + Print(els, depth + 1)
    case Let(name, val, body) => "L" + " " + name + " " + Print(val, depth) + Line(depth) + Print(body, depth)
    case Import(mod, symbol, _) => "I" + " " + mod + " " + symbol
    case Pack(inst) => "jp" + " " + Print(inst, depth)
    case Unpack(json, shape) => "ju" + " " + Print(json, depth) + " " + Quoted(shape)
    case Map(inst, field, func) => "map" + " " + Print(inst, depth) + " " + Quoted(field) + " " + Print(func, depth)
    case Filter(inst, func) => "flt" + " " + Print(inst, depth) + " " + Print(func, depth)
    case Metadata(tag, val, target) => "M" + " " + Print(tag, depth) + " " + Print(val, depth) + " " + Print(target, depth)
    case Trap(attempt, fallback) => "^" + " " + Print(attempt, depth) + " " + Print(fallback, depth)
  }

  function PrintAll(es: Exprs, depth: nat): string
    decreases es
  {
    match es
    case Nil => ""
    case Cons(head, tail) => " " + Print(head, depth) + PrintAll(tail, depth)
  }

  /** The expressions of a module, one per line. */
  function PrintModule(es: seq<Expr>): string {
    if es == [] then ""
    else if |es| == 1 then Print(es[0], 0)
    else Print(es[0], 0) + "\n" + PrintModule(es[1..])
  }

  // ----- The tokens of an expression -----

  function PrimTokens(op: PrimOp): seq<Token> {
    match op
    case Binary(b) => [Op(b)]
    case TimeArith(b) => [Key(TimeNow)] + [Op(b)]
    case MoneyArith(b) => [Money] + [Op(b)]
    case MoneyStr => [Money] + [Key(Str)]
    case _ => [Key(op)]
  }

  function ParamsTokens(params: seq<Param>): seq<Token> {
    if params == [] then []
    else [Token.Identifier(params[0].name)] + (if params[0].expand then [Bang] else []) + ParamsTokens(params[1..])
  }

  function NamesTokens(names: seq<string>): seq<Token> {
    if names == [] then [] else [Token.Identifier(names[0])] + NamesTokens(names[1..])
  }

  function ExportTokens(exported: bool, ts: seq<Token>): seq<Token> {
    if exported then [Export] + ts else ts
  }

  function ModuleToken(mod: string): Token {
    if mod == "http" then Key(HttpClient) else Token.Identifier(mod)
  }

  function Tokens(e: Expr): (ts: seq<Token>)
    ensures ts != []
    decreases e
  {
    match e
    case Integer(value) => [Token.Integer(value)]
    case DeBruijn(idx) => [Token.DeBruijn(idx)]
    case Identifier(name) => [Token.Identifier(name)]
    case Text(text) => [Token.Text(text)]
    case Expand(name) => [Bang] + [Token.Identifier(name)]
    case Prim(op, args) => PrimTokens(op) + TokensAll(args)
    case Apply(func, args) => [Token.Apply(Length(args))] + Tokens(func) + TokensAll(args)
    case Move(inner) => [Token.Move] + Tokens(inner)
    case Borrow(inner) => [Token.Borrow] + Tokens(inner)
    case MutBorrow(inner) => [Token.MutBorrow] + Tokens(inner)
    case Define(name, params, body, exported) =>
      ExportTokens(exported, [Token.Define] + [Token.Identifier(name)] + ParamsTokens(params) + Tokens(body))
    case Shape(name, fields, exported) =>
      ExportTokens(exported, [Token.Shape] + [Token.Identifier(name)] + NamesTokens(fields))
    case New(shape, count) => [Token.New] + [Token.Identifier(shape)] + Tokens(count)
    case Get(inst, field, index) => [Token.Get] + Tokens(inst) + [Token.Identifier(field)] + Tokens(index)
    case Set(inst, field, index, val) =>
      [Token.Set] + Tokens(inst) + [Token.Identifier(field)] + Tokens(index) + Tokens(val)
    case If(cond, thn, els) => [Question] + Tokens(cond) + Tokens(thn) + Tokens(els)
    case Let(name, val, body) => [Token.Let] + [Token.Identifier(name)] + Tokens(val) + Tokens(body)
    case Import(mod, symbol, _) => [Token.Import] + [ModuleToken(mod)] + [Token.Identifier(symbol)]
    case Pack(inst) => [Token.Pack(1)] + Tokens(inst)
    case Unpack(json, shape) => [Token.Pack(2)] + Tokens(json) + [Token.Text(shape)]
    case Map(inst, field, func) => [Token.Map] + Tokens(inst) + [Token.Text(field)] + Tokens(func)
    case Filter(inst, func) => [Token.Filter] + Tokens(inst) + Tokens(func)
    case Metadata(tag, val, target) => [Token.Metadata] + Tokens(tag) + Tokens(val) + Tokens(target)
    case Trap(attempt, fallback) => [Token.Trap] + Tokens(attempt) + Tokens(fallback)
  }

  function TokensAll(es: Exprs): seq<Token>
    decreases es
  {
    match es
    case Nil => []
    case Cons(head, tail) => Tokens(head) + TokensAll(tail)
  }

  function ModuleTokens(es: seq<Expr>): seq<Token> {
    if es == [] then [] else Tokens(es[0]) + ModuleTokens(es[1..])
  }

  // ----- Which expressions print faithfully -----

  /** A word the lexer reads as one identifier. */
  predicate ValidName(w: string, u: Unicode) {
    && w != "" && (IsLetter(w[0]) || w[0] == '_') && Punctuation(w[0]).None?
    && (forall i | 0 <= i < |w| :: IsWordChar(w[i], u))
    && Keyword(w) == Token.Identifier(w)
  }

  /** What the lexer can produce. */
  predicate ValidToken(t: Token, u: Unicode) {
    match t
    case Identifier(name) => ValidName(name, u)
    case Integer(value) => 0 <= value < I64_LIMIT
    case DeBruijn(idx) => idx < USIZE_LIMIT
    case Apply(arity) => arity < USIZE_LIMIT
    case Pack(n) => n == 1 || n == 2
    case Key(op) => !op.Binary? && !op.TimeArith? && !op.MoneyArith? && !op.MoneyStr?
    case _ => true
  }

  /** Every name and number in `e` is one the parser can build, and every operator has its operands. */
  predicate Printable(e: Expr, u: Unicode) {
    match e
    case Unpack(json, _) => Printable(json, u)
    case Map(inst, _, func) => Printable(inst, u) && Printable(func, u)
    case Integer(value) => value < I64_LIMIT && -value <= I64_LIMIT
    case DeBruijn(idx) => idx < USIZE_LIMIT
    case Identifier(name) => ValidName(name, u)
    case Text(_) => true
    case Expand(name) => ValidName(name, u)
    case Prim(op, args) => Length(args) == Arity(op) && AllPrintable(args, u)
    case Apply(func, args) => Length(args) < USIZE_LIMIT && Printable(func, u) && AllPrintable(args, u)
    case Move(inner) => Printable(inner, u)
    case Borrow(inner) => Printable(inner, u)
    case MutBorrow(inner) => Printable(inner, u)
    case Define(name, params, body, _) =>
      ValidName(name, u) && (forall p | p in params :: ValidName(p.name, u)) && Printable(body, u)
    case Shape(name, fields, _) => ValidName(name, u) && forall f | f in fields :: ValidName(f, u)
    case New(shape, count) => ValidName(shape, u) && Printable(count, u)
    case Get(inst, field, index) => ValidName(field, u) && Printable(inst, u) && Printable(index, u)
    case Set(inst, field, index, val) =>
      ValidName(field, u) && Printable(inst, u) && Printable(index, u) && Printable(val, u)
    case If(cond, thn, els) => Printable(cond, u) && Printable(thn, u) && Printable(els, u)
    case Let(name, val, body) => ValidName(name, u) && Printable(val, u) && Printable(body, u)
    case Import(mod, symbol, _) => (mod == "http" || ValidName(mod, u)) && ValidName(symbol, u)
    case Pack(inst) => Printable(inst, u)
    case Filter(inst, func) => Printable(inst, u) && Printable(func, u)
    case Metadata(tag, val, target) => Printable(tag, u) && Printable(val, u) && Printable(target, u)
    case Trap(attempt, fallback) => Printable(attempt, u) && Printable(fallback, u)
  }

  predicate AllPrintable(es: Exprs, u: Unicode) {
    match es
    case Nil => true
    case Cons(head, tail) => Printable(head, u) && AllPrintable(tail, u)
  }

  /** The strings of `map` and `ju` are printed as they are. */
  predicate PlainText(s: string) {
    '"' !in s && '\\' !in s
  }

  /** No integer is negative and every `map` and `ju` string is free of quotes and backslashes. */
  predicate Plain(e: Expr) {
    match e
    case Integer(value) => value >= 0
    case Unpack(json, shape) => Plain(json) && PlainText(shape)
    case Map(inst, field, func) => Plain(inst) && PlainText(field) && Plain(func)
    case DeBruijn(_) | Identifier(_) | Text(_) | Expand(_) | Shape(_, _, _) | Import(_, _, _) => true
    case Prim(_, args) => AllPlain(args)
    case Apply(func, args) => Plain(func) && AllPlain(args)
    case Move(inner) => Plain(inner)
    case Borrow(inner) => Plain(inner)
    case MutBorrow(inner) => Plain(inner)
    case Define(_, _, body, _) => Plain(body)
    case New(_, count) => Plain(count)
    case Get(inst, _, index) => Plain(inst) && Plain(index)
    case Set(inst, _, index, val) => Plain(inst) && Plain(index) && Plain(val)
    case If(cond, thn, els) => Plain(cond) && Plain(thn) && Plain(els)
    case Let(_, val, body) => Plain(val) && Plain(body)
    case Pack(inst) => Plain(inst)
    case Filter(inst, func) => Plain(inst) && Plain(func)
    case Metadata(tag, val, target) => Plain(tag) && Plain(val) && Plain(target)
    case Trap(attempt, fallback) => Plain(attempt) && Plain(fallback)
  }

  predicate AllPlain(es: Exprs) {
    match es
    case Nil => true
    case Cons(head, tail) => Plain(head) && AllPlain(tail)
  }
}
