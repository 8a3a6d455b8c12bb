/** The lexer (`src/compiler/lexer/mod.rs`), as a function from source text to tokens. */
module Lexing {
  import opened Ast
  import opened Wrappers

  /** The tokens.  `Key` stands for the tokens whose operands follow directly (`sl`, `sc`, `(`, `!` ..)
      and `Op` for the ten operators.  `Bad` stands for a lexical error, or a panic on a number that is
      out of range; a float literal keeps its text. */
  datatype Token =
    | Op(op: BinOp)
    | Key(prim: PrimOp)
    | Apply(arity: nat)
    | Pack(operands: nat)
    | DeBruijn(idx: nat)
    | Integer(value: int)
    | Float(text: string)
    | Text(text: string)
    | Identifier(name: string)
    | Move | Borrow | MutBorrow
    | Define | Shape | New | Get | Set | Let | Import | Export | Metadata
    | Question | Bang | Trap | Money | Map | Filter | Router
    | EOF | Bad

  /** Whether a character beyond ASCII is alphanumeric. */
  type Unicode = char -> bool

  const USIZE_LIMIT: nat := 0x1_0000_0000_0000_0000
  const I64_LIMIT: nat := 0x8000_0000_0000_0000

  predicate IsSpace(c: char) {
    || '\U{9}' <= c <= '\U{D}' || c == ' ' || c == '\U{85}' || c == '\U{A0}' || c == '\U{1680}'
    || '\U{2000}' <= c <= '\U{200A}' || c == '\U{2028}' || c == '\U{2029}' || c == '\U{202F}'
    || c == '\U{205F}' || c == '\U{3000}'
  }

  predicate IsDigit(c: char) { '0' <= c <= '9' }

  predicate IsNumberChar(c: char) { IsDigit(c) || c == '.' }

  predicate IsLetter(c: char) { 'a' <= c <= 'z' || 'A' <= c <= 'Z' }

  predicate IsWordChar(c: char, u: Unicode) {
    c == '_' || (if c < '\U{80}' then IsLetter(c) || IsDigit(c) else u(c) && !IsSpace(c))
  }

  function DigitRun(s: string): (n: nat)
    ensures n <= |s| && (forall i | 0 <= i < n :: IsDigit(s[i])) && (n < |s| ==> !IsDigit(s[n]))
  {
    if s != "" && IsDigit(s[0]) then 1 + DigitRun(s[1..]) else 0
  }

  function NumberRun(s: string): (n: nat)
    ensures n <= |s| && (forall i | 0 <= i < n :: IsNumberChar(s[i])) && (n < |s| ==> !IsNumberChar(s[n]))
  {
    if s != "" && IsNumberChar(s[0]) then 1 + NumberRun(s[1..]) else 0
  }

  function WordRun(s: string, u: Unicode): (n: nat)
    ensures n <= |s| && (forall i | 0 <= i < n :: IsWordChar(s[i], u)) && (n < |s| ==> !IsWordChar(s[n], u))
  {
    if s != "" && IsWordChar(s[0], u) then 1 + WordRun(s[1..], u) else 0
  }

  predicate AllDigits(s: string) {
    forall i | 0 <= i < |s| :: IsDigit(s[i])
  }

  function NatOf(digits: string): nat
    requires AllDigits(digits)
  {
    if digits == "" then 0
    else
      assert IsDigit(digits[|digits| - 1]);
      10 * NatOf(digits[..|digits| - 1]) + (digits[|digits| - 1] - '0') as nat
  }

  /** `parse().unwrap_or(default)` of a `usize`. */
  function UsizeOr(digits: string, default: nat): nat
    requires AllDigits(digits)
  {
    if NatOf(digits) < USIZE_LIMIT then NatOf(digits) else default
  }

  /** What follows the newline that ends a comment. */
  function AfterLine(s: string): (rest: string)
    ensures |rest| <= |s|
  {
    if s == "" then "" else if s[0] == '\n' then s[1..] else AfterLine(s[1..])
  }

  function Unescaped(c: char): char {
    match c
    case 'n' => '\n'
    case 't' => '\t'
    case 'r' => '\r'
    case _ => c
  }

  /** The contents of a string literal, and what follows its closing quote.  The end of the input also
      ends it. */
  function LexString(s: string): (r: (string, string))
    ensures |r.1| <= |s|
  {
    if s == "" then ("", "")
    else if s[0] == '"' then ("", s[1..])
    else if s[0] == '\\' then
      if |s| == 1 then ("", "")
      else var (text, rest) := LexString(s[2..]); ([Unescaped(s[1])] + text, rest)
    else var (text, rest) := LexString(s[1..]); ([s[0]] + text, rest)
  }

  function LexNumber(s: string): Token
    requires s != "" && forall i | 0 <= i < |s| :: IsNumberChar(s[i])
  {
    if !AllDigits(s) then Float(s)
    else if NatOf(s) < I64_LIMIT then Token.Integer(NatOf(s))
    else Bad
  }

  function Keyword(word: string): Token {
    match word
    case "map" => Token.Map
    case "flt" => Token.Filter
    case "http" => Key(HttpClient)
    case "srv" => Key(HttpServer)
    case "rt" => Router
    case "hdr" => Key(HttpHeader)
    case "env" => Key(Env)
    case "fo" => Key(FileOpen)
    case "jp" => Token.Pack(1)
    case "ju" => Token.Pack(2)
    case "oe" => Key(OtelEmit)
    case "sl" => Key(Len)
    case "sc" => Key(Cat)
    case "ss" => Key(SubStr)
    case "sf" => Key(Loc)
    case "sr" => Key(Reg)
    case "sp" => Key(Split)
    case "tn" => Key(TimeNow)
    case "tns" => Key(TimeNano)
    case "tz" => Key(TimeZone)
    case "tg" => Key(TimeGet)
    case "ts" => Key(TimeSet)
    case "str" => Key(Str)
    case "gt" => Op(Gt)
    case "lt" => Op(Lt)
    case "xor" => Op(BitXor)
    case _ => Token.Identifier(word)
  }

  /** The tokens of one character that need no look at what follows. */
  function Punctuation(c: char): Option<Token> {
    match c
    case '+' => Some(Op(Add))
    case '-' => Some(Op(Sub))
    case '*' => Some(Op(Mul))
    case '>' => Some(Token.Move)
    case '$' => Some(Token.Borrow)
    case '~' => Some(Token.MutBorrow)
    case '=' => Some(Op(Eq))
    case '<' => Some(Op(Lt))
    case '.' => Some(Key(PrimOp.Seq))
    case '&' => Some(Op(BitAnd))
    case '|' => Some(Op(BitOr))
    case ':' => Some(Token.Define)
    case '#' => Some(Token.Shape)
    case '?' => Some(Question)
    case '!' => Some(Key(Panic))
    case '`' => Some(Bang)
    case '(' => Some(Key(PrimOp.Read))
    case ')' => Some(Key(PrimOp.Write))
    case '%' => Some(Money)
    case 'N' => Some(Token.New)
    case 'G' => Some(Token.Get)
    case 'S' => Some(Token.Set)
    case 'M' => Some(Token.Metadata)
    case 'X' => Some(Export)
    case 'L' => Some(Token.Let)
    case 'I' => Some(Token.Import)
    case _ => None
  }

  /** `next_token`: the next token and the text after it. */
  function Next(s: string, u: Unicode): (r: (Token, string))
    ensures r.0 != EOF && r.0 != Bad ==> |r.1| < |s|
    decreases |s|
  {
    if s == "" then (EOF, "")
    else if IsSpace(s[0]) then Next(s[1..], u)
    else
      var c, rest := s[0], s[1..];
      if Punctuation(c).Some? then (Punctuation(c).value, rest)
      else if c == '@' then
        var n := DigitRun(rest);
        (Token.Apply(if n == 0 then 1 else UsizeOr(rest[..n], 1)), rest[n..])
      else if c == '^' then
        var n := DigitRun(rest);
        (if n == 0 then Token.Trap else Token.DeBruijn(UsizeOr(rest[..n], 0)), rest[n..])
      else if c == '/' then
        if rest != "" && rest[0] == '/' then Next(AfterLine(rest), u) else (Op(Div), rest)
      else if c == '"' then
        var (text, after) := LexString(rest);
        (Token.Text(text), after)
      else if IsDigit(c) then
        var n := NumberRun(s);
        (LexNumber(s[..n]), s[n..])
      else if IsLetter(c) || c == '_' then
        var n := WordRun(s, u);
        (Keyword(s[..n]), s[n..])
      else (Bad, s)
  }

  /** All tokens of a text, up to and including the end or the first error. */
  function Stream(s: string, u: Unicode): (ts: seq<Token>)
    ensures ts != []
    decreases |s|
  {
    var (t, rest) := Next(s, u);
    if t == EOF || t == Bad then [t] else [t] + Stream(rest, u)
  }
}
