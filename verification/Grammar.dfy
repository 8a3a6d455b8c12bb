/** The grammar of the language over tokens, told along the syntax tree, and that the parser of
    `src/compiler/parser/mod.rs` reads exactly what it tells. */
module Grammar {
  import opened Ast
  import opened Lexing
  import opened Parsing
  import opened Wrappers

  // ----- Names, numbers and modules -----

  /** `idx` is the De Bruijn index of the innermost binder of `name`. */
  predicate Binds(names: seq<string>, name: string, idx: nat) {
    && idx < |names| && names[|names| - 1 - idx] == name
    && forall j | |names| - idx <= j < |names| :: names[j] != name
  }

  /** `v` is the amount of `w` in ten-thousandths, in 64 bits. */
  predicate Amount(w: int, v: int) {
    -0x8000_0000_0000_0000 <= v < 0x8000_0000_0000_0000 && (v - 10000 * w) % 0x1_0000_0000_0000_0000 == 0
  }

  /** The first entry of the name. */
  predicate Entry<V(==)>(entries: seq<(string, V)>, name: string, value: V) {
    exists k | 0 <= k < |entries| :: entries[k] == (name, value) && forall j | 0 <= j < k :: entries[j].0 != name
  }

  predicate Absent<V>(entries: seq<(string, V)>, name: string) {
    forall k | 0 <= k < |entries| :: entries[k].0 != name
  }

  /** `e` is a definition, under any number of layers of metadata. */
  predicate Defines(e: Expr) {
    e.Define? || (e.Metadata? && Defines(e.target))
  }

  function ParamNames(params: seq<Param>): (names: seq<string>)
    ensures |names| == |params|
  {
    seq(|params|, i requires 0 <= i < |params| => params[i].name)
  }

  /** What is in scope behind a binding: outside of all definitions it binds nothing. */
  function Bound(scope: Scope, name: string): Scope {
    if scope.open then Scope(true, scope.names + [name]) else scope
  }

  // ----- The grammar -----

  /** What is left of a text once parts of it are read, or none if it reads otherwise. */
  type Left = Option<seq<Token>>

  function Past(from: Left, t: Token): Left {
    if from.Some? && from.value != [] && from.value[0] == t then Some(from.value[1..]) else None
  }

  predicate PlusMinus(t: Token) { t == Op(Add) || t == Op(Sub) }

  /** The tokens at which an operation begins; `tn` may take a sign, and `%` takes a sign or `str`. */
  predicate BeginsPrim(first: Token, op: PrimOp) {
    || first == Key(op)
    || (op.Binary? && first == Op(op.op))
    || (op.TimeArith? && op.op in {Add, Sub} && first == Key(TimeNow))
    || (op.MoneyArith? && op.op in {Add, Sub, Mul, Div} && first.Money?)
    || (op.MoneyStr? && first.Money?)
  }

  /** The second token of the operations that have one; `tn` alone must have none. */
  function PastOperator(first: Token, rest: seq<Token>, op: PrimOp): Left {
    match op
    case TimeNow => if rest != [] && PlusMinus(rest[0]) then None else Some(rest)
    case TimeArith(b) => if first == Key(op) then Some(rest) else Past(Some(rest), Op(b))
    case MoneyArith(b) => if first == Key(op) then Some(rest) else Past(Some(rest), Op(b))
    case MoneyStr => if first == Key(op) then Some(rest) else Past(Some(rest), Key(Str))
    case _ => Some(rest)
  }

  /** Parameters, each with its mark if it has one; no name and no mark may follow. */
  function PastParams(from: Left, params: seq<Param>): Left
    decreases |params|
  {
    if from.None? then None
    else if params == [] then if from.value != [] && from.value[0].Identifier? then None else from
    else if |from.value| > 1 && from.value[1].Bang? != params[0].expand then None
    else
      var named := Past(from, Token.Identifier(params[0].name));
      PastParams(if params[0].expand then Past(named, Bang) else named, params[1..])
  }

  /** Names, with none to follow. */
  function PastNames(from: Left, names: seq<string>): Left
    decreases |names|
  {
    if from.None? then None
    else if names == [] then if from.value != [] && from.value[0].Identifier? then None else from
    else PastNames(Past(from, Token.Identifier(names[0])), names[1..])
  }

  function PastMarks(ts: seq<Token>): seq<Token> {
    if ts != [] && ts[0].Export? then PastMarks(ts[1..]) else ts
  }

  /** A name of a module, or `hc` for the module `http`, and a function of it that is no shape. */
  function PastImport(from: Left, mod: string, symbol: string, arity: nat, mods: Modules): Left {
    if mod in mods && Absent(mods[mod].shapes, symbol) && Entry(mods[mod].funcs, symbol, arity) then
      var named := Past(from, Token.Identifier(mod));
      Past(if named.None? && mod == "http" then Past(from, Key(HttpClient)) else named, Token.Identifier(symbol))
    else None
  }

  /** The tokens at which an expression begins. */
  predicate Begins(first: Token, e: Expr, scope: Scope) {
    match e
    case Integer(v) => first == Token.Integer(v) || first.Money?
    case Text(s) => first == Token.Text(s)
    case DeBruijn(idx) => first == Token.DeBruijn(idx) || (first.Identifier? && Binds(scope.names, first.name, idx))
    case Identifier(name) => first == Token.Identifier(name) && name !in scope.names
    case Expand(_) => first.Bang?
    case Prim(op, _) => BeginsPrim(first, op)
    case Apply(_, args) => first == Token.Apply(Length(args))
    case Move(_) => first.Move?
    case Borrow(_) => first.Borrow?
    case MutBorrow(_) => first.MutBorrow?
    case Define(_, _, _, exported) => if exported then first.Export? else first.Define?
    case Shape(_, _, exported) => if exported then first.Export? else first.Shape?
    case New(_, _) => first.New?
    case Get(_, _, _) => first.Get?
    case Set(_, _, _, _) => first.Set?
    case If(_, _, _) => first.Question?
    case Let(_, _, _) => first.Let?
    case Import(_, _, _) => first.Import?
    case Pack(_) => first == Token.Pack(1)
    case Unpack(_, _) => first.Pack? && first.operands != 1
    case Map(_, _, _) => first.Map?
    case Filter(_, _) => first.Filter?
    case Metadata(_, _, _) => first.Metadata?
    case Trap(_, _) => first.Trap?
  }

  /** What is left behind `e`, written at the beginning of `from` in this scope. */
  function After(from: Left, e: Expr, scope: Scope, mods: Modules): Left
    decreases e, 1
  {
    if from.None? || from.value == [] || !Begins(from.value[0], e, scope) then None else
    var first, rest := from.value[0], Some(from.value[1..]);
    match e
    case Integer(v) =>
      if first.Integer? then rest
      else if rest.value != [] && rest.value[0].Integer? && Amount(rest.value[0].value, v) then Some(rest.value[1..])
      else None
    case Text(_) | DeBruijn(_) | Identifier(_) => rest
    case Expand(name) => Past(rest, Token.Identifier(name))
    case Prim(op, args) =>
      if Length(args) != Arity(op) then None else AfterAll(PastOperator(first, rest.value, op), args, scope, mods)
    case Apply(func, args) => AfterAll(After(rest, func, scope, mods), args, scope, mods)
    case Move(inner) => After(rest, inner, scope, mods)
    case Borrow(inner) => After(rest, inner, scope, mods)
    case MutBorrow(inner) => After(rest, inner, scope, mods)
    case Define(_, _, _, _) => AfterBare(Some(PastMarks(from.value)), e, scope, mods)
    case Shape(_, _, _) => AfterBare(Some(PastMarks(from.value)), e, scope, mods)
    case New(shape, count) => After(Past(rest, Token.Identifier(shape)), count, scope, mods)
    case Get(inst, field, index) =>
      After(Past(After(rest, inst, scope, mods), Token.Identifier(field)), index, scope, mods)
    case Set(inst, field, index, val) =>
      var indexed := After(Past(After(rest, inst, scope, mods), Token.Identifier(field)), index, scope, mods);
      After(indexed, val, scope, mods)
    case If(cond, thn, els) => After(After(After(rest, cond, scope, mods), thn, scope, mods), els, scope, mods)
    case Let(name, val, body) =>
      After(After(Past(rest, Token.Identifier(name)), val, scope, mods), body, Bound(scope, name), mods)
    case Import(mod, symbol, arity) => PastImport(rest, mod, symbol, arity, mods)
    case Pack(inst) => After(rest, inst, scope, mods)
    case Unpack(json, shape) => Past(After(rest, json, scope, mods), Token.Text(shape))
    case Map(inst, field, func) => After(Past(After(rest, inst, scope, mods), Token.Text(field)), func, scope, mods)
    case Filter(inst, func) => After(After(rest, inst, scope, mods), func, scope, mods)
    case Metadata(tag, val, target) =>
      if tag == Expr.Text("test") && !Defines(target) then None
      else After(After(After(rest, tag, scope, mods), val, scope, mods), target, scope, mods)
    case Trap(attempt, fallback) => After(After(rest, attempt, scope, mods), fallback, scope, mods)
  }

  /** A definition or a shape without its export marks.  The parameters of a definition are in scope in its
      body, with all that was. */
  function AfterBare(from: Left, e: Expr, scope: Scope, mods: Modules): Left
    requires e.Define? || e.Shape?
    decreases e, 0
  {
    if e.Define? then
      var params := PastParams(Past(Past(from, Token.Define), Token.Identifier(e.name)), e.params);
      After(params, e.body, Scope(true, scope.names + ParamNames(e.params)), mods)
    else PastNames(Past(Past(from, Token.Shape), Token.Identifier(e.name)), e.fields)
  }

  function AfterAll(from: Left, es: Exprs, scope: Scope, mods: Modules): Left
    decreases es, 0
  {
    match es
    case Nil => from
    case Cons(head, tail) => AfterAll(After(from, head, scope, mods), tail, scope, mods)
  }

  /** The tokens are the expressions of a module, one after the other. */
  predicate IsModule(ts: seq<Token>, es: seq<Expr>, mods: Modules)
    decreases |es|
  {
    if es == [] then ts != [] && ts[0].EOF?
    else
      var rest := After(Some(ts), es[0], Scope(false, []), mods);
      rest.Some? && IsModule(rest.value, es[1..], mods)
  }

  // ----- Where reading ends -----

  /** Something follows that is no lexical error. */
  predicate Goes(ts: seq<Token>) {
    ts != [] && ts[0] != Bad
  }

  predicate Open(from: Left) {
    from.Some? && Goes(from.value)
  }

  lemma Consumed(ts: seq<Token>)
    requires ts != [] && !ts[0].EOF?
    ensures Consume(ts).Ok? <==> Goes(ts[1..])
    ensures Consume(ts).Ok? ==> Consume(ts).value == ts[1..]
  {
  }

  /** Nothing is read where nothing is left, or at a lexical error. */
  lemma Stuck(from: Left, e: Expr, scope: Scope, mods: Modules)
    requires !Open(from)
    ensures After(from, e, scope, mods).None?
  {
    hide AfterAll, AfterBare;
  }

  lemma {:induction false} StuckAll(from: Left, es: Exprs, scope: Scope, mods: Modules)
    requires !Open(from)
    ensures !Open(AfterAll(from, es, scope, mods))
    decreases es
  {
    hide After;
    if es.Cons? {
      Stuck(from, es.head, scope, mods);
      StuckAll(None, es.tail, scope, mods);
    }
  }

  lemma NothingAll(es: Exprs, scope: Scope, mods: Modules)
    ensures AfterAll(None, es, scope, mods).None?
  {
  }

  // ----- The parser reads what the grammar tells -----

  /** A function of the parser answers `x` exactly if `x` can be read, and then stops where it ends. */
  ghost predicate Agrees<T>(r: Result<(T, seq<Token>)>, x: T, after: Left) {
    && (Open(after) ==> r == Ok((x, after.value)))
    && (r.Ok? && r.value.0 == x ==> Open(after) && after.value == r.value.1)
  }

  lemma NameAgrees(ts: seq<Token>, name: string)
    requires ts != []
    ensures Agrees(ConsumeName(ts), name, Past(Some(ts), Token.Identifier(name)))
  {
    if !ts[0].EOF? { Consumed(ts); }
  }

  lemma TextAgrees(ts: seq<Token>, text: string)
    requires ts != []
    ensures Agrees(ConsumeText(ts), text, Past(Some(ts), Token.Text(text)))
  {
    if !ts[0].EOF? { Consumed(ts); }
  }

  lemma {:induction false} ParseAgrees(ts: seq<Token>, e: Expr, scope: Scope, mods: Modules)
    requires ts != []
    ensures Agrees(Parse(ts, scope, mods), e, After(Some(ts), e, scope, mods))
    decreases |ts|, 3
  {
    hide Parse, After, Begins;
    if !Begins(ts[0], e, scope) { Misfit(ts, e, scope, mods); } else {
      match e
      case Integer(_) => NumberAgrees(ts, e, scope, mods);
      case Text(_) | DeBruijn(_) | Identifier(_) | Expand(_) => AtomAgrees(ts, e, scope, mods);
      case Prim(_, _) => PrimAgrees(ts, e, scope, mods);
      case Define(_, _, _, _) => DeclarationAgrees(ts, e, scope, mods);
      case Shape(_, _, _) => DeclarationAgrees(ts, e, scope, mods);
      case New(_, _) | Get(_, _, _) | Set(_, _, _, _) | Let(_, _, _) => FieldFormAgrees(ts, e, scope, mods);
      case Import(_, _, _) | Unpack(_, _) | Map(_, _, _) | Metadata(_, _, _) => OtherFormAgrees(ts, e, scope, mods);
      case _ => FormerAgrees(ts, e, scope, mods);
    }
  }

  lemma {:induction false} FieldFormAgrees(ts: seq<Token>, e: Expr, scope: Scope, mods: Modules)
    requires ts != [] && Begins(ts[0], e, scope) && (e.New? || e.Get? || e.Set? || e.Let?)
    ensures Agrees(Parse(ts, scope, mods), e, After(Some(ts), e, scope, mods))
    decreases |ts|, 1
  {
    hide After, ParseLet, ParseNew, ParseGet, ParseSet;
    match e
    case New(_, _) => NewAgrees(ts, e, scope, mods);
    case Get(_, _, _) => GetAgrees(ts, e, scope, mods);
    case Set(_, _, _, _) => SetAgrees(ts, e, scope, mods);
    case Let(_, _, _) => LetAgrees(ts, e, scope, mods);
  }

  lemma {:induction false} OtherFormAgrees(ts: seq<Token>, e: Expr, scope: Scope, mods: Modules)
    requires ts != [] && Begins(ts[0], e, scope) && (e.Import? || e.Unpack? || e.Map? || e.Metadata?)
    ensures Agrees(Parse(ts, scope, mods), e, After(Some(ts), e, scope, mods))
    decreases |ts|, 1
  {
    hide After, ParseImport, ParseUnpack, ParseMap, ParseMetadata;
    match e
    case Import(_, _, _) => ImportAgrees(ts, e, scope, mods);
    case Unpack(_, _) => UnpackAgrees(ts, e, scope, mods);
    case Map(_, _, _) => MapAgrees(ts, e, scope, mods);
    case Metadata(_, _, _) => MetadataAgrees(ts, e, scope, mods);
  }

  /** What is parsed begins as an expression of its kind does. */
  lemma ParsedBegins(ts: seq<Token>, scope: Scope, mods: Modules)
    requires ts != [] && Parse(ts, scope, mods).Ok?
    ensures Begins(ts[0], Parse(ts, scope, mods).value.0, scope)
  {
    hide Parse, Begins;
    match ts[0]
    case Identifier(_) => NameBegins(ts, scope, mods);
    case Op(_) | Move | Borrow | MutBorrow | Question | Filter | Trap | Apply(_) | Pack(1) => FormerBegins(ts, scope, mods);
    case Key(_) | Money => OperationBegins(ts, scope, mods);
    case _ => FormBegins(ts, scope, mods);
  }

  lemma FormBegins(ts: seq<Token>, scope: Scope, mods: Modules)
    requires ts != [] && Parse(ts, scope, mods).Ok? && !ts[0].Identifier? && !ts[0].Money? && FormerOf(ts[0]).None?
    ensures Begins(ts[0], Parse(ts, scope, mods).value.0, scope)
  {
    hide ParseLet, ParseDefine, ParseShape, ParseNew, ParseGet, ParseSet, ParseMetadata, ParseExport, ParseImport, ParseUnpack, ParseMap,
         Binds;
  }

  lemma FormerBegins(ts: seq<Token>, scope: Scope, mods: Modules)
    requires ts != [] && Parse(ts, scope, mods).Ok? && FormerOf(ts[0]).Some? && !ts[0].Key?
    ensures Begins(ts[0], Parse(ts, scope, mods).value.0, scope)
  {
    hide ParseFormer;
    HeadBegins(FormerOf(ts[0]).value, ts, scope, mods);
  }

  lemma OperationBegins(ts: seq<Token>, scope: Scope, mods: Modules)
    requires ts != [] && Parse(ts, scope, mods).Ok? && (ts[0].Key? || ts[0].Money?)
    ensures Begins(ts[0], Parse(ts, scope, mods).value.0, scope)
  {
    hide ParseFormer, ParseMoney, ParseTime;
    if ts[0].Money? { MoneyBegins(ts, scope, mods); }
    else if ts[0] == Key(TimeNow) { TimeBegins(ts, scope, mods); }
    else { HeadBegins(FPrim(ts[0].prim), ts, scope, mods); }
  }

  lemma NameBegins(ts: seq<Token>, scope: Scope, mods: Modules)
    requires ts != [] && ts[0].Identifier? && Parse(ts, scope, mods).Ok?
    ensures Begins(ts[0], Parse(ts, scope, mods).value.0, scope)
  {
    var e := Parse(ts, scope, mods).value.0;
    ResolveExact(scope, ts[0].name, if e.DeBruijn? then e.idx else 0);
  }

  lemma HeadBegins(f: Former, ts: seq<Token>, scope: Scope, mods: Modules)
    requires ts != [] && FormerOf(ts[0]) == Some(f) && !ts[0].EOF? && ParseFormer(f, ts, scope, mods).Ok?
    ensures Begins(ts[0], ParseFormer(f, ts, scope, mods).value.0, scope)
  {
    hide Parse, ParseMany;
  }

  lemma MoneyBegins(ts: seq<Token>, scope: Scope, mods: Modules)
    requires ts != [] && ts[0].Money? && ParseMoney(ts, scope, mods).Ok?
    ensures Begins(ts[0], ParseMoney(ts, scope, mods).value.0, scope)
  {
    hide Parse, ParseMany;
  }

  lemma TimeBegins(ts: seq<Token>, scope: Scope, mods: Modules)
    requires ts != [] && ts[0] == Key(TimeNow) && ParseTime(ts, scope, mods).Ok?
    ensures Begins(ts[0], ParseTime(ts, scope, mods).value.0, scope)
  {
    hide Parse, ParseMany;
  }

  lemma Misfit(ts: seq<Token>, e: Expr, scope: Scope, mods: Modules)
    requires ts != [] && !Begins(ts[0], e, scope)
    ensures Agrees(Parse(ts, scope, mods), e, After(Some(ts), e, scope, mods))
  {
    hide Parse;
    if Parse(ts, scope, mods).Ok? { ParsedBegins(ts, scope, mods); }
  }

  lemma AtomAgrees(ts: seq<Token>, e: Expr, scope: Scope, mods: Modules)
    requires ts != [] && Begins(ts[0], e, scope) && (e.Text? || e.DeBruijn? || e.Identifier? || e.Expand?)
    ensures Agrees(Parse(ts, scope, mods), e, After(Some(ts), e, scope, mods))
  {
    hide AfterBare, AfterAll, PastImport, Defines, PastOperator, BeginsPrim;
    if ts[0].Identifier? { WordAgrees(ts, e, scope, mods); }
    else {
      Consumed(ts);
      if e.Expand? && Goes(ts[1..]) { NameAgrees(ts[1..], e.name); }
    }
  }

  lemma WordAgrees(ts: seq<Token>, e: Expr, scope: Scope, mods: Modules)
    requires ts != [] && ts[0].Identifier? && Begins(ts[0], e, scope) && (e.DeBruijn? || e.Identifier?)
    ensures Agrees(Parse(ts, scope, mods), e, After(Some(ts), e, scope, mods))
  {
    hide AfterBare, AfterAll, PastImport, Defines, PastOperator, BeginsPrim;
    Consumed(ts);
    ResolveExact(scope, ts[0].name, if e.DeBruijn? then e.idx else 0);
  }

  lemma NumberAgrees(ts: seq<Token>, e: Expr, scope: Scope, mods: Modules)
    requires ts != [] && Begins(ts[0], e, scope) && e.Integer?
    ensures Agrees(Parse(ts, scope, mods), e, After(Some(ts), e, scope, mods))
  {
    hide ParseMoney;
    if ts[0].Money? { AmountAgrees(ts, e, scope, mods); } else { Consumed(ts); }
  }

  lemma ScaledAmount(w: int, v: int)
    ensures Amount(w, v) <==> v == Scaled(w)
  {
  }

  lemma AmountAgrees(ts: seq<Token>, e: Expr, scope: Scope, mods: Modules)
    requires ts != [] && ts[0].Money? && e.Integer?
    ensures Agrees(ParseMoney(ts, scope, mods), e, After(Some(ts), e, scope, mods))
  {
    hide Amount, Scaled, ParseMany, Parse;
    Consumed(ts);
    if Goes(ts[1..]) && ts[1].Integer? {
      Consumed(ts[1..]);
      ScaledAmount(ts[1].value, e.value);
    }
  }

  lemma {:induction false} ManyAgrees(n: nat, ts: seq<Token>, es: Exprs, scope: Scope, mods: Modules)
    requires Goes(ts) && Length(es) == n
    ensures Agrees(ParseMany(n, ts, scope, mods), es, AfterAll(Some(ts), es, scope, mods))
    decreases |ts|, 4, n
  {
    hide Parse, After;
    if n > 0 {
      ParseAgrees(ts, es.head, scope, mods);
      var after := After(Some(ts), es.head, scope, mods);
      if Open(after) { ManyAgrees(n - 1, after.value, es.tail, scope, mods); } else { StuckAll(after, es.tail, scope, mods); }
    }
  }

  /** The operands of an expression of the former. */
  function OperandsOf(f: Former, e: Expr): Option<Exprs> {
    match e
    case Prim(op, args) => if f == FPrim(op) then Some(args) else None
    case Apply(func, args) => if f == FApply(Length(args)) then Some(Cons(func, args)) else None
    case Move(inner) => if f == FMove then Some(Cons(inner, Nil)) else None
    case Borrow(inner) => if f == FBorrow then Some(Cons(inner, Nil)) else None
    case MutBorrow(inner) => if f == FMutBorrow then Some(Cons(inner, Nil)) else None
    case If(cond, thn, els) => if f == FIf then Some(Cons(cond, Cons(thn, Cons(els, Nil)))) else None
    case Filter(inst, func) => if f == FFilter then Some(Cons(inst, Cons(func, Nil))) else None
    case Trap(attempt, fallback) => if f == FTrap then Some(Cons(attempt, Cons(fallback, Nil))) else None
    case Pack(inst) => if f == FPack then Some(Cons(inst, Nil)) else None
    case _ => None
  }

  /** Taking operands apart undoes putting them together. */
  lemma MakeOperands(f: Former, args: Exprs)
    requires Length(args) == Operands(f)
    ensures OperandsOf(f, Make(f, args)) == Some(args)
  {
    if Length(args) > 0 {
      var tail := args.tail;
      assert f.FIf? || f.FFilter? || f.FTrap? ==> Arg(args, 1) == Arg(tail, 0) && tail.Cons?;
      assert f.FIf? ==> Arg(args, 2) == Arg(tail, 1) == Arg(tail.tail, 0) && tail.tail.Cons? && tail.tail.tail.Nil?;
    }
  }

  lemma OperandsMake(f: Former, e: Expr)
    requires OperandsOf(f, e).Some? && Length(OperandsOf(f, e).value) == Operands(f)
    ensures Make(f, OperandsOf(f, e).value) == e
  {
    var args := OperandsOf(f, e).value;
    assert e.If? || e.Filter? || e.Trap? ==> Arg(args, 1) == Arg(args.tail, 0);
    assert e.If? ==> Length(args.tail) == 2 && Arg(args, 2) == Arg(args.tail, 1) == Arg(args.tail.tail, 0);
  }

  /** The operands behind a head that has been read. */
  lemma {:induction false} OperandsAgree(f: Former, ts: seq<Token>, e: Expr, scope: Scope, mods: Modules)
    requires ts != [] && !ts[0].EOF?
    requires OperandsOf(f, e).Some? && Length(OperandsOf(f, e).value) == Operands(f)
    ensures Agrees(ParseFormer(f, ts, scope, mods), e, AfterAll(Some(ts[1..]), OperandsOf(f, e).value, scope, mods))
    decreases |ts|, 0, 0
  {
    hide Parse, After, AfterAll, ParseMany, OperandsOf;
    var args := OperandsOf(f, e).value;
    Consumed(ts);
    OperandsMake(f, e);
    if Goes(ts[1..]) {
      ManyAgrees(Operands(f), ts[1..], args, scope, mods);
      var r := ParseMany(Operands(f), ts[1..], scope, mods);
      if r.Ok? { MakeOperands(f, r.value.0); }
    } else {
      StuckAll(Some(ts[1..]), args, scope, mods);
    }
  }

  /** An expression whose head is one token reads on with its operands. */
  lemma AfterFormer(f: Former, ts: seq<Token>, e: Expr, scope: Scope, mods: Modules)
    requires ts != [] && Begins(ts[0], e, scope) && FormerOf(ts[0]) == Some(f)
    requires e.Apply? || e.Move? || e.Borrow? || e.MutBorrow? || e.If? || e.Pack? || e.Filter? || e.Trap?
    ensures OperandsOf(f, e).Some? && Length(OperandsOf(f, e).value) == Operands(f)
    ensures After(Some(ts), e, scope, mods) == AfterAll(Some(ts[1..]), OperandsOf(f, e).value, scope, mods)
  {
    hide After;
    if e.If? || e.Filter? || e.Trap? { AfterSeveral(f, ts, e, scope, mods); }
    else { AfterSingle(f, ts, e, scope, mods); }
  }

  lemma AfterSeveral(f: Former, ts: seq<Token>, e: Expr, scope: Scope, mods: Modules)
    requires ts != [] && Begins(ts[0], e, scope) && FormerOf(ts[0]) == Some(f) && (e.If? || e.Filter? || e.Trap?)
    ensures OperandsOf(f, e).Some? && Length(OperandsOf(f, e).value) == Operands(f)
    ensures After(Some(ts), e, scope, mods) == AfterAll(Some(ts[1..]), OperandsOf(f, e).value, scope, mods)
  {
    hide AfterBare;
    var from := Some(ts[1..]);
    match e
    case If(cond, thn, els) => AllThree(from, cond, thn, els, scope, mods);
    case Filter(inst, func) => AllTwo(from, inst, func, scope, mods);
    case Trap(attempt, fallback) => AllTwo(from, attempt, fallback, scope, mods);
  }

  lemma AfterSingle(f: Former, ts: seq<Token>, e: Expr, scope: Scope, mods: Modules)
    requires ts != [] && Begins(ts[0], e, scope) && FormerOf(ts[0]) == Some(f)
    requires e.Apply? || e.Move? || e.Borrow? || e.MutBorrow? || e.Pack?
    ensures OperandsOf(f, e).Some? && Length(OperandsOf(f, e).value) == Operands(f)
    ensures After(Some(ts), e, scope, mods) == AfterAll(Some(ts[1..]), OperandsOf(f, e).value, scope, mods)
  {
    hide AfterBare;
    var from := Some(ts[1..]);
    match e
    case Move(inner) => AllOne(from, inner, scope, mods);
    case Borrow(inner) => AllOne(from, inner, scope, mods);
    case MutBorrow(inner) => AllOne(from, inner, scope, mods);
    case Pack(inst) => AllOne(from, inst, scope, mods);
    case Apply(_, _) =>
  }

  lemma AllOne(from: Left, a: Expr, scope: Scope, mods: Modules)
    ensures AfterAll(from, Cons(a, Nil), scope, mods) == After(from, a, scope, mods) && Length(Cons(a, Nil)) == 1
  {
    hide After;
    assert AfterAll(After(from, a, scope, mods), Nil, scope, mods) == After(from, a, scope, mods);
  }

  lemma AllTwo(from: Left, a: Expr, b: Expr, scope: Scope, mods: Modules)
    ensures AfterAll(from, Cons(a, Cons(b, Nil)), scope, mods) == After(After(from, a, scope, mods), b, scope, mods)
    ensures Length(Cons(a, Cons(b, Nil))) == 2
  {
    hide After;
    AllOne(After(from, a, scope, mods), b, scope, mods);
  }

  lemma AllThree(from: Left, a: Expr, b: Expr, c: Expr, scope: Scope, mods: Modules)
    ensures AfterAll(from, Cons(a, Cons(b, Cons(c, Nil))), scope, mods)
            == After(After(After(from, a, scope, mods), b, scope, mods), c, scope, mods)
    ensures Length(Cons(a, Cons(b, Cons(c, Nil)))) == 3
  {
    hide After;
    AllTwo(After(from, a, scope, mods), b, c, scope, mods);
  }

  lemma {:induction false} FormerAgrees(ts: seq<Token>, e: Expr, scope: Scope, mods: Modules)
    requires ts != [] && Begins(ts[0], e, scope)
    requires e.Apply? || e.Move? || e.Borrow? || e.MutBorrow? || e.If? || e.Pack? || e.Filter? || e.Trap?
    ensures Agrees(Parse(ts, scope, mods), e, After(Some(ts), e, scope, mods))
    decreases |ts|, 1
  {
    hide After, AfterAll, ParseFormer, OperandsOf;
    var f := FormerOf(ts[0]).value;
    AfterFormer(f, ts, e, scope, mods);
    OperandsAgree(f, ts, e, scope, mods);
  }

  lemma PrimMade(op: PrimOp, ts: seq<Token>, scope: Scope, mods: Modules)
    requires ts != [] && !ts[0].EOF? && ParseFormer(FPrim(op), ts, scope, mods).Ok?
    ensures ParseFormer(FPrim(op), ts, scope, mods).value.0.Prim?
    ensures ParseFormer(FPrim(op), ts, scope, mods).value.0.op == op
    ensures Length(ParseFormer(FPrim(op), ts, scope, mods).value.0.args) == Arity(op)
  {
    hide Parse, ParseMany;
  }

  /** The operands of an operation, read or not. */
  lemma {:induction false} PrimOperands(op: PrimOp, ts: seq<Token>, e: Expr, scope: Scope, mods: Modules)
    requires ts != [] && !ts[0].EOF? && e.Prim?
    ensures Agrees(ParseFormer(FPrim(op), ts, scope, mods), e,
                   if e.op == op && Length(e.args) == Arity(op) then AfterAll(Some(ts[1..]), e.args, scope, mods) else None)
    decreases |ts|, 0, 1
  {
    hide Parse, AfterAll, ParseFormer;
    if e.op == op && Length(e.args) == Arity(op) {
      OperandsAgree(FPrim(op), ts, e, scope, mods);
    } else if ParseFormer(FPrim(op), ts, scope, mods).Ok? {
      PrimMade(op, ts, scope, mods);
    }
  }

  lemma {:induction false} PrimAgrees(ts: seq<Token>, e: Expr, scope: Scope, mods: Modules)
    requires ts != [] && Begins(ts[0], e, scope) && e.Prim?
    ensures Agrees(Parse(ts, scope, mods), e, After(Some(ts), e, scope, mods))
    decreases |ts|, 1
  {
    hide AfterAll, ParseFormer, ParseMoney, ParseTime;
    if ts[0].Money? {
      MoneyAgrees(ts, e, scope, mods);
    } else if ts[0] == Key(TimeNow) {
      TimeAgrees(ts, e, scope, mods);
    } else {
      PrimOperands(e.op, ts, e, scope, mods);
    }
  }

  lemma {:induction false} MoneyAgrees(ts: seq<Token>, e: Expr, scope: Scope, mods: Modules)
    requires ts != [] && Begins(ts[0], e, scope) && e.Prim? && ts[0].Money?
    ensures Agrees(ParseMoney(ts, scope, mods), e, After(Some(ts), e, scope, mods))
    decreases |ts|, 0
  {
    hide AfterAll, ParseFormer;
    Consumed(ts);
    var from := PastOperator(ts[0], ts[1..], e.op);
    if from.None? { NothingAll(e.args, scope, mods); }
    if !Goes(ts[1..]) {
      assert from.None?;
    } else if ts[1] == Key(Str) {
      PrimOperands(MoneyStr, ts[1..], e, scope, mods);
    } else if ts[1].Op? {
      PrimOperands(MoneyArith(ts[1].op), ts[1..], e, scope, mods);
    }
  }

  lemma {:induction false} TimeAgrees(ts: seq<Token>, e: Expr, scope: Scope, mods: Modules)
    requires ts != [] && Begins(ts[0], e, scope) && e.Prim? && ts[0] == Key(TimeNow)
    ensures Agrees(ParseTime(ts, scope, mods), e, After(Some(ts), e, scope, mods))
    decreases |ts|, 0
  {
    hide AfterAll, ParseFormer;
    Consumed(ts);
    var from := PastOperator(ts[0], ts[1..], e.op);
    if from.None? { NothingAll(e.args, scope, mods); }
    if e.op.TimeNow? && Length(e.args) == 0 { assert AfterAll(from, e.args, scope, mods) == from by { NilAll(from, e.args, scope, mods); } }
    if Goes(ts[1..]) && IsPlusMinus(ts[1]) {
      PrimOperands(TimeArith(ts[1].op), ts[1..], e, scope, mods);
    }
  }

  lemma NilAll(from: Left, es: Exprs, scope: Scope, mods: Modules)
    requires Length(es) == 0
    ensures es.Nil? && AfterAll(from, es, scope, mods) == from
  {
  }

  lemma {:induction false} LetAgrees(ts: seq<Token>, e: Expr, scope: Scope, mods: Modules)
    requires ts != [] && ts[0].Let? && e.Let?
    ensures Agrees(ParseLet(ts, scope, mods), e, After(Some(ts), e, scope, mods))
    decreases |ts|, 0
  {
    hide Parse, AfterAll, AfterBare;
    Consumed(ts);
    if Goes(ts[1..]) {
      NameAgrees(ts[1..], e.name);
      var named := Past(Some(ts[1..]), Token.Identifier(e.name));
      if Open(named) {
        ParseAgrees(named.value, e.val, scope, mods);
        var after := After(named, e.val, scope, mods);
        if Open(after) { ParseAgrees(after.value, e.body, Bound(scope, e.name), mods); } else { Stuck(after, e.body, Bound(scope, e.name), mods); }
      } else {
        Stuck(named, e.val, scope, mods);
      }
    }
  }

  lemma {:induction false} NewAgrees(ts: seq<Token>, e: Expr, scope: Scope, mods: Modules)
    requires ts != [] && ts[0].New? && e.New?
    ensures Agrees(ParseNew(ts, scope, mods), e, After(Some(ts), e, scope, mods))
    decreases |ts|, 0
  {
    hide Parse, AfterAll, AfterBare;
    Consumed(ts);
    if Goes(ts[1..]) {
      NameAgrees(ts[1..], e.shape);
      var named := Past(Some(ts[1..]), Token.Identifier(e.shape));
      if Open(named) { ParseAgrees(named.value, e.count, scope, mods); } else { Stuck(named, e.count, scope, mods); }
    }
  }

  lemma {:induction false} GetAgrees(ts: seq<Token>, e: Expr, scope: Scope, mods: Modules)
    requires ts != [] && ts[0].Get? && e.Get?
    ensures Agrees(ParseGet(ts, scope, mods), e, After(Some(ts), e, scope, mods))
    decreases |ts|, 0
  {
    hide Parse, AfterAll, AfterBare;
    Consumed(ts);
    if Goes(ts[1..]) {
      ParseAgrees(ts[1..], e.inst, scope, mods);
      var after := After(Some(ts[1..]), e.inst, scope, mods);
      if Open(after) { NameAgrees(after.value, e.field); }
      var named := Past(after, Token.Identifier(e.field));
      if Open(named) { ParseAgrees(named.value, e.index, scope, mods); } else { Stuck(named, e.index, scope, mods); }
    } else {
      Stuck(Some(ts[1..]), e.inst, scope, mods);
    }
  }

  lemma {:induction false} SetAgrees(ts: seq<Token>, e: Expr, scope: Scope, mods: Modules)
    requires ts != [] && ts[0].Set? && e.Set?
    ensures Agrees(ParseSet(ts, scope, mods), e, After(Some(ts), e, scope, mods))
    decreases |ts|, 0
  {
    hide Parse, AfterAll, AfterBare;
    Consumed(ts);
    if Goes(ts[1..]) {
      ParseAgrees(ts[1..], e.inst, scope, mods);
      var after := After(Some(ts[1..]), e.inst, scope, mods);
      if Open(after) { NameAgrees(after.value, e.field); }
      var named := Past(after, Token.Identifier(e.field));
      if Open(named) { ParseAgrees(named.value, e.index, scope, mods); } else { Stuck(named, e.index, scope, mods); }
      var indexed := After(named, e.index, scope, mods);
      if Open(indexed) { ParseAgrees(indexed.value, e.val, scope, mods); } else { Stuck(indexed, e.val, scope, mods); }
    } else {
      Stuck(Some(ts[1..]), e.inst, scope, mods);
      Stuck(None, e.val, scope, mods);
    }
  }

  lemma {:induction false} MapAgrees(ts: seq<Token>, e: Expr, scope: Scope, mods: Modules)
    requires ts != [] && ts[0].Map? && e.Map?
    ensures Agrees(ParseMap(ts, scope, mods), e, After(Some(ts), e, scope, mods))
    decreases |ts|, 0
  {
    hide Parse, AfterAll, AfterBare;
    Consumed(ts);
    if Goes(ts[1..]) {
      ParseAgrees(ts[1..], e.inst, scope, mods);
      var after := After(Some(ts[1..]), e.inst, scope, mods);
      if Open(after) { TextAgrees(after.value, e.field); }
      var named := Past(after, Token.Text(e.field));
      if Open(named) { ParseAgrees(named.value, e.func, scope, mods); } else { Stuck(named, e.func, scope, mods); }
    } else {
      Stuck(Some(ts[1..]), e.inst, scope, mods);
    }
  }

  lemma {:induction false} UnpackAgrees(ts: seq<Token>, e: Expr, scope: Scope, mods: Modules)
    requires ts != [] && ts[0].Pack? && e.Unpack? && ts[0].operands != 1
    ensures Agrees(ParseUnpack(ts, scope, mods), e, After(Some(ts), e, scope, mods))
    decreases |ts|, 0
  {
    hide Parse, AfterAll, AfterBare;
    Consumed(ts);
    if Goes(ts[1..]) {
      ParseAgrees(ts[1..], e.json, scope, mods);
      var after := After(Some(ts[1..]), e.json, scope, mods);
      if Open(after) { TextAgrees(after.value, e.shape); }
    } else {
      Stuck(Some(ts[1..]), e.json, scope, mods);
    }
  }

  lemma {:induction false} DefinesExact(e: Expr)
    ensures IsDefinition(e) <==> Defines(e)
    decreases e
  {
    if e.Metadata? { DefinesExact(e.target); }
  }

  lemma {:induction false} MetadataAgrees(ts: seq<Token>, e: Expr, scope: Scope, mods: Modules)
    requires ts != [] && ts[0].Metadata? && e.Metadata?
    ensures Agrees(ParseMetadata(ts, scope, mods), e, After(Some(ts), e, scope, mods))
    decreases |ts|, 0
  {
    hide Parse, AfterAll, AfterBare, Defines, IsDefinition;
    Consumed(ts);
    DefinesExact(e.target);
    if Goes(ts[1..]) {
      ParseAgrees(ts[1..], e.tag, scope, mods);
      var tagged := After(Some(ts[1..]), e.tag, scope, mods);
      if Open(tagged) { ParseAgrees(tagged.value, e.val, scope, mods); } else { Stuck(tagged, e.val, scope, mods); }
      var valued := After(tagged, e.val, scope, mods);
      if Open(valued) { ParseAgrees(valued.value, e.target, scope, mods); } else { Stuck(valued, e.target, scope, mods); }
    } else {
      Stuck(Some(ts[1..]), e.tag, scope, mods);
      Stuck(None, e.val, scope, mods);
      Stuck(None, e.target, scope, mods);
    }
  }

  lemma {:induction false} LookupExact<V>(entries: seq<(string, V)>, name: string, value: V)
    ensures Lookup(entries, name).None? <==> Absent(entries, name)
    ensures Lookup(entries, name) == Some(value) <==> Entry(entries, name, value)
    decreases |entries|
  {
    if entries != [] {
      var rest := entries[1..];
      LookupExact(rest, name, value);
      assert forall k | 0 < k < |entries| :: entries[k] == rest[k - 1];
      if entries[0].0 != name && Entry(rest, name, value) {
        var k :| 0 <= k < |rest| && rest[k] == (name, value) && forall j | 0 <= j < k :: rest[j].0 != name;
        assert entries[k + 1] == (name, value);
      }
    }
  }

  lemma ImportAgrees(ts: seq<Token>, e: Expr, scope: Scope, mods: Modules)
    requires ts != [] && ts[0].Import? && e.Import?
    ensures Agrees(ParseImport(ts, mods), e, After(Some(ts), e, scope, mods))
  {
    hide Entry, Absent, Lookup;
    Consumed(ts);
    if e.mod in mods {
      LookupExact(mods[e.mod].shapes, e.symbol, []);
      LookupExact(mods[e.mod].funcs, e.symbol, e.arity);
    }
    if Goes(ts[1..]) && !ts[1].EOF? {
      Consumed(ts[1..]);
      if Goes(ts[2..]) { NameAgrees(ts[2..], e.symbol); }
    }
  }

  lemma {:induction false} NamesAgree(ts: seq<Token>, names: seq<string>)
    requires Goes(ts)
    ensures Agrees(ParseNames(ts), names, PastNames(Some(ts), names))
    decreases |ts|
  {
    if ts[0].Identifier? {
      Consumed(ts);
      if names != [] {
        assert names == [names[0]] + names[1..];
        if Goes(ts[1..]) { NamesAgree(ts[1..], names[1..]); } else { NamesStuck(Some(ts[1..]), names[1..]); }
      }
    }
  }

  lemma NamesStuck(from: Left, names: seq<string>)
    requires !Open(from)
    ensures !Open(PastNames(from, names))
  {
  }

  lemma {:induction false} ParamsAgree(ts: seq<Token>, params: seq<Param>)
    requires Goes(ts)
    ensures Agrees(ParseParams(ts), params, PastParams(Some(ts), params))
    decreases |ts|
  {
    if ts[0].Identifier? {
      Consumed(ts);
      if params != [] {
        assert params == [params[0]] + params[1..];
        if Goes(ts[1..]) {
          if !ts[1].EOF? { Consumed(ts[1..]); }
          var rest := if ts[1].Bang? then ts[2..] else ts[1..];
          if Goes(rest) { ParamsAgree(rest, params[1..]); } else { ParamsStuck(Some(rest), params[1..]); }
        } else {
          ParamsStuck(Some(ts[1..]), params[1..]);
        }
      }
    }
  }

  lemma ParamsStuck(from: Left, params: seq<Param>)
    requires !Open(from)
    ensures !Open(PastParams(from, params))
  {
  }

  lemma {:induction false} ScopeOfParams(scope: Scope, params: seq<Param>)
    requires scope.open
    ensures AddParams(scope, params) == Scope(true, scope.names + ParamNames(params))
    decreases |params|
  {
    if params == [] {
      assert scope.names + ParamNames(params) == scope.names;
    } else {
      ScopeOfParams(scope.Add(params[0].name), params[1..]);
      assert ParamNames(params) == [params[0].name] + ParamNames(params[1..]);
      assert scope.names + ParamNames(params) == scope.names + [params[0].name] + ParamNames(params[1..]);
    }
  }

  lemma {:induction false} DefineAgrees(ts: seq<Token>, e: Expr, scope: Scope, mods: Modules)
    requires ts != [] && ts[0].Define? && e.Define? && !e.exported
    ensures Agrees(ParseDefine(ts, scope, mods), e, AfterBare(Some(ts), e, scope, mods))
    decreases |ts|, 0
  {
    hide Parse, After, AfterAll, PastParams, ParamNames;
    Consumed(ts);
    if Goes(ts[1..]) { NameAgrees(ts[1..], e.name); }
    var named := Past(Some(ts[1..]), Token.Identifier(e.name));
    ScopeOfParams(Scope(true, scope.names), e.params);
    var inner := Scope(true, scope.names + ParamNames(e.params));
    if Open(named) { ParamsAgree(named.value, e.params); } else { ParamsStuck(named, e.params); }
    var from := PastParams(named, e.params);
    if Open(from) { ParseAgrees(from.value, e.body, inner, mods); } else { Stuck(from, e.body, inner, mods); }
  }

  lemma ShapeAgrees(ts: seq<Token>, e: Expr, scope: Scope, mods: Modules)
    requires ts != [] && ts[0].Shape? && e.Shape? && !e.exported
    ensures Agrees(ParseShape(ts), e, AfterBare(Some(ts), e, scope, mods))
  {
    hide After, PastNames;
    Consumed(ts);
    if Goes(ts[1..]) { NameAgrees(ts[1..], e.name); }
    var named := Past(Some(ts[1..]), Token.Identifier(e.name));
    if Open(named) { NamesAgree(named.value, e.fields); } else { NamesStuck(named, e.fields); }
  }

  lemma AfterMarks(ts: seq<Token>, e: Expr, scope: Scope, mods: Modules)
    requires ts != [] && Begins(ts[0], e, scope) && (e.Define? || e.Shape?)
    ensures After(Some(ts), e, scope, mods) == AfterBare(Some(PastMarks(ts)), e, scope, mods)
    ensures !e.exported ==> PastMarks(ts) == ts
  {
    hide AfterBare;
  }

  /** A declaration begins with its keyword, and is read alike whether it is exported or not. */
  lemma Bare(from: Left, e: Expr, exported: bool, scope: Scope, mods: Modules)
    requires e.Define? || e.Shape?
    ensures AfterBare(from, e.(exported := exported), scope, mods) == AfterBare(from, e, scope, mods)
    ensures !Open(from) || (e.Define? && !from.value[0].Define?) || (e.Shape? && !from.value[0].Shape?)
            ==> !Open(AfterBare(from, e, scope, mods))
  {
    hide After;
    if e.Define? { Stuck(None, e.body, Scope(true, scope.names + ParamNames(e.params)), mods); }
  }

  lemma {:induction false} ExportAgrees(ts: seq<Token>, e: Expr, scope: Scope, mods: Modules)
    requires ts != [] && ts[0].Export? && (e.Define? || e.Shape?) && e.exported
    ensures Agrees(ParseExport(ts, scope, mods), e, AfterBare(Some(PastMarks(ts)), e, scope, mods))
    decreases |ts|, 0
  {
    hide Parse, After, AfterBare;
    Consumed(ts);
    if Goes(ts[1..]) {
      var inner := e.(exported := ts[1].Export?);
      Bare(Some(PastMarks(ts[1..])), e, inner.exported, scope, mods);
      ParseAgrees(ts[1..], inner, scope, mods);
      if Begins(ts[1], inner, scope) { AfterMarks(ts[1..], inner, scope, mods); } else { Misfit(ts[1..], inner, scope, mods); }
      if Parse(ts[1..], scope, mods).Ok? { ParsedBegins(ts[1..], scope, mods); }
    } else {
      Bare(Some(ts[1..]), e, true, scope, mods);
    }
  }

  lemma {:induction false} DeclarationAgrees(ts: seq<Token>, e: Expr, scope: Scope, mods: Modules)
    requires ts != [] && Begins(ts[0], e, scope) && (e.Define? || e.Shape?)
    ensures Agrees(Parse(ts, scope, mods), e, After(Some(ts), e, scope, mods))
    decreases |ts|, 1
  {
    hide After, AfterBare, PastMarks, ParseExport, ParseDefine, ParseShape;
    AfterMarks(ts, e, scope, mods);
    if e.exported {
      ExportAgrees(ts, e, scope, mods);
    } else if e.Define? {
      DefineAgrees(ts, e, scope, mods);
    } else {
      ShapeAgrees(ts, e, scope, mods);
    }
  }

  /** The parser reads an expression exactly where the grammar has it, and stops right behind it; something
      must follow that is no lexical error, since the lexer is one token ahead. */
  lemma ParseExact(ts: seq<Token>, e: Expr, rest: seq<Token>, scope: Scope, mods: Modules)
    requires ts != []
    ensures Parse(ts, scope, mods) == Ok((e, rest)) <==> After(Some(ts), e, scope, mods) == Some(rest) && Goes(rest)
  {
    hide Parse, After;
    ParseAgrees(ts, e, scope, mods);
  }

  /** A token list parses as a module exactly if it is one. */
  lemma {:induction false} ModuleExact(ts: seq<Token>, es: seq<Expr>, mods: Modules)
    requires ts != []
    ensures ParseModule(ts, mods) == Ok(es) <==> IsModule(ts, es, mods)
    decreases |ts|
  {
    hide Parse, After;
    var scope := Scope(false, []);
    if ts[0].EOF? {
      if es != [] { Ended(ts, es[0], scope, mods); }
    } else {
      if es != [] {
        ParseAgrees(ts, es[0], scope, mods);
        assert es == [es[0]] + es[1..];
        var after := After(Some(ts), es[0], scope, mods);
        if Open(after) { ModuleExact(after.value, es[1..], mods); }
        else if after.Some? && es[1..] != [] { Stuck(after, es[1], scope, mods); }
      }
    }
  }

  lemma Ended(ts: seq<Token>, e: Expr, scope: Scope, mods: Modules)
    requires ts != [] && ts[0].EOF?
    ensures After(Some(ts), e, scope, mods).None?
  {
  }

  // ----- What is refused although it reads well -----

  /** E015: an export mark in front of something that cannot be exported. */
  lemma ExportRefused(ts: seq<Token>, inner: Expr, scope: Scope, mods: Modules)
    requires ts != [] && ts[0].Export? && !inner.Define? && !inner.Shape?
    requires Open(After(Some(ts[1..]), inner, scope, mods))
    ensures Parse(ts, scope, mods) == Err(E015)
  {
    hide After, ParseExport;
    ExportError(ts, inner, scope, mods);
  }

  lemma ExportError(ts: seq<Token>, inner: Expr, scope: Scope, mods: Modules)
    requires ts != [] && ts[0].Export? && !inner.Define? && !inner.Shape?
    requires Open(After(Some(ts[1..]), inner, scope, mods))
    ensures ParseExport(ts, scope, mods) == Err(E015)
  {
    hide After, Parse;
    if !Open(Some(ts[1..])) { Stuck(Some(ts[1..]), inner, scope, mods); }
    Consumed(ts);
    ParseAgrees(ts[1..], inner, scope, mods);
  }

  /** E019: a test that is no definition. */
  lemma TestRefused(ts: seq<Token>, val: Expr, target: Expr, scope: Scope, mods: Modules)
    requires ts != [] && ts[0].Metadata? && !Defines(target)
    requires Open(After(After(After(Some(ts[1..]), Expr.Text("test"), scope, mods), val, scope, mods), target, scope, mods))
    ensures Parse(ts, scope, mods) == Err(E019)
  {
    hide After, ParseMetadata;
    TestError(ts, val, target, scope, mods);
  }

  lemma TestError(ts: seq<Token>, val: Expr, target: Expr, scope: Scope, mods: Modules)
    requires ts != [] && ts[0].Metadata? && !Defines(target)
    requires Open(After(After(After(Some(ts[1..]), Expr.Text("test"), scope, mods), val, scope, mods), target, scope, mods))
    ensures ParseMetadata(ts, scope, mods) == Err(E019)
  {
    hide After, Parse;
    var tag := Expr.Text("test");
    var tagged := After(Some(ts[1..]), tag, scope, mods);
    var valued := After(tagged, val, scope, mods);
    if !Open(valued) { Stuck(valued, target, scope, mods); }
    if !Open(tagged) { Stuck(tagged, val, scope, mods); }
    if !Open(Some(ts[1..])) { Stuck(Some(ts[1..]), tag, scope, mods); }
    Consumed(ts);
    ParseAgrees(ts[1..], tag, scope, mods);
    ParseAgrees(tagged.value, val, scope, mods);
    ParseAgrees(valued.value, target, scope, mods);
    DefinesExact(target);
  }

  /** E017 and E018: an import from a module that is not there, and of a name that it does not declare. */
  lemma ImportRefused(mod: string, symbol: string, rest: seq<Token>, scope: Scope, mods: Modules)
    requires Goes(rest)
    requires mod in mods ==> Absent(mods[mod].shapes, symbol)
    ensures var r := Parse([Token.Import, Token.Identifier(mod), Token.Identifier(symbol)] + rest, scope, mods);
      && (r == Err(E017) <==> mod !in mods)
      && (r == Err(E018) <==> mod in mods && Absent(mods[mod].funcs, symbol))
  {
    hide Absent, Lookup;
    var ts := [Token.Import, Token.Identifier(mod), Token.Identifier(symbol)] + rest;
    assert ts[3..] == rest;
    Consumed(ts);
    Consumed(ts[1..]);
    Consumed(ts[2..]);
    if mod in mods {
      LookupExact(mods[mod].shapes, symbol, []);
      LookupExact(mods[mod].funcs, symbol, 0);
    }
  }
}
