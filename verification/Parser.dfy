/** The parser (`src/compiler/parser/mod.rs`), as a function from tokens to syntax trees. */
module Parsing {
  import opened Ast
  import opened Lexing
  import opened Wrappers

  /** `NotModelled` answers a float literal, a router and the import of a shape. */
  datatype ParseError = E001 | E002 | E015 | E017 | E018 | E019 | NotModelled

  datatype Result<+T> = Ok(value: T) | Err(error: ParseError) {
    predicate IsFailure() { Err? }
    function PropagateFailure<U>(): Result<U> requires Err? { Err(error) }
    function Extract(): T requires Ok? { value }
  }

  /** What `load_signature` finds in a module's signature file. */
  datatype Signature = Signature(funcs: seq<(string, nat)>, shapes: seq<(string, seq<string>)>)

  type Modules = map<string, Signature>

  /** The names in scope, innermost last, and whether any scope is open: outside all definitions a `L`
      binds nothing. */
  datatype Scope = Scope(open: bool, names: seq<string>) {
    /** `resolve_variable` */
    function Resolve(name: string): (r: Option<nat>)
      ensures r.Some? ==> r.value < |names| && names[|names| - 1 - r.value] == name
      decreases |names|
    {
      if names == [] then None
      else if names[|names| - 1] == name then Some(0)
      else
        match Scope(open, names[..|names| - 1]).Resolve(name)
        case Some(i) => Some(i + 1)
        case None => None
    }

    /** `add_variable` */
    function Add(name: string): Scope {
      if open then Scope(true, names + [name]) else this
    }
  }

  /** A name is resolved to its innermost binder, and to none only if nothing binds it. */
  lemma ResolveExact(scope: Scope, name: string, i: nat)
    ensures scope.Resolve(name) == Some(i)
            <==> i < |scope.names| && scope.names[|scope.names| - 1 - i] == name
                 && forall j | |scope.names| - i <= j < |scope.names| :: scope.names[j] != name
    ensures scope.Resolve(name) == None <==> name !in scope.names
  {
    Resolved(scope, name);
    var names := scope.names;
    if scope.Resolve(name).Some? && i < |names| && names[|names| - 1 - i] == name {
      var r := scope.Resolve(name).value;
      if i > r { assert names[|names| - 1 - r] == name; }
    }
  }

  lemma {:induction false} Resolved(scope: Scope, name: string)
    ensures scope.Resolve(name) == None <==> name !in scope.names
    ensures scope.Resolve(name).Some?
            ==> forall j | |scope.names| - scope.Resolve(name).value <= j < |scope.names| :: scope.names[j] != name
    decreases |scope.names|
  {
    var names := scope.names;
    if names != [] {
      var last := |names| - 1;
      assert names == names[..last] + [names[last]];
      Resolved(Scope(scope.open, names[..last]), name);
    }
  }

  /** The constructs that consist of a head and a number of operands. */
  datatype Former =
    | FPrim(op: PrimOp)
    | FMove | FBorrow | FMutBorrow
    | FIf | FFilter | FTrap | FPack
    | FApply(arity: nat)

  function Operands(f: Former): nat {
    match f
    case FPrim(op) => Arity(op)
    case FIf => 3
    case FFilter | FTrap => 2
    case FApply(n) => 1 + n
    case _ => 1
  }

  /** The constructs whose head is a single token. */
  function FormerOf(t: Token): Option<Former> {
    match t
    case Op(b) => Some(FPrim(Binary(b)))
    case Key(op) => Some(FPrim(op))
    case Move => Some(FMove)
    case Borrow => Some(FBorrow)
    case MutBorrow => Some(FMutBorrow)
    case Question => Some(FIf)
    case Filter => Some(FFilter)
    case Trap => Some(FTrap)
    case Pack(1) => Some(FPack)
    case Apply(n) => Some(FApply(n))
    case _ => None
  }

  function Arg(args: Exprs, i: nat): Expr
    requires i < Length(args)
  {
    if i == 0 then args.head else Arg(args.tail, i - 1)
  }

  function Make(f: Former, args: Exprs): Expr
    requires Length(args) == Operands(f)
  {
    match f
    case FPrim(op) => Prim(op, args)
    case FMove => Expr.Move(Arg(args, 0))
    case FBorrow => Expr.Borrow(Arg(args, 0))
    case FMutBorrow => Expr.MutBorrow(Arg(args, 0))
    case FIf => If(Arg(args, 0), Arg(args, 1), Arg(args, 2))
    case FFilter => Expr.Filter(Arg(args, 0), Arg(args, 1))
    case FTrap => Expr.Trap(Arg(args, 0), Arg(args, 1))
    case FPack => Expr.Pack(Arg(args, 0))
    case FApply(_) => Expr.Apply(args.head, args.tail)
  }

  /** `consume`: steps over a token.  The lexer runs one token ahead, so its error shows here. */
  function Consume(ts: seq<Token>): (r: Result<seq<Token>>)
    requires ts != []
    ensures r.Ok? ==> r.value != []
    ensures r.Ok? && ts[0] != EOF ==> |r.value| < |ts|
  {
    if ts[0] == EOF then Ok(ts)
    else if |ts| == 1 || ts[1] == Bad then Err(E001)
    else Ok(ts[1..])
  }

  function ConsumeName(ts: seq<Token>): (r: Result<(string, seq<Token>)>)
    requires ts != []
    ensures r.Ok? ==> r.value.1 != [] && |r.value.1| < |ts|
  {
    var rest :- Consume(ts);
    if ts[0].Identifier? then Ok((ts[0].name, rest)) else Err(E002)
  }

  function ConsumeText(ts: seq<Token>): (r: Result<(string, seq<Token>)>)
    requires ts != []
    ensures r.Ok? ==> r.value.1 != [] && |r.value.1| < |ts|
  {
    var rest :- Consume(ts);
    if ts[0].Text? then Ok((ts[0].text, rest)) else Err(E002)
  }

  /** The parameters of a definition, each with its optional expand mark. */
  function ParseParams(ts: seq<Token>): (r: Result<(seq<Param>, seq<Token>)>)
    requires ts != []
    ensures r.Ok? ==> r.value.1 != [] && |r.value.1| + |r.value.0| <= |ts|
    decreases |ts|
  {
    if !ts[0].Identifier? then Ok(([], ts)) else
    var ts1 :- Consume(ts);
    if ts1[0].Bang? then
      var ts2 :- Consume(ts1);
      var (params, rest) :- ParseParams(ts2);
      Ok(([Param(ts[0].name, true)] + params, rest))
    else
      var (params, rest) :- ParseParams(ts1);
      Ok(([Param(ts[0].name, false)] + params, rest))
  }

  function ParseNames(ts: seq<Token>): (r: Result<(seq<string>, seq<Token>)>)
    requires ts != []
    ensures r.Ok? ==> r.value.1 != [] && |r.value.1| <= |ts|
    decreases |ts|
  {
    if !ts[0].Identifier? then Ok(([], ts)) else
    var ts1 :- Consume(ts);
    var (names, rest) :- ParseNames(ts1);
    Ok(([ts[0].name] + names, rest))
  }

  function AddParams(scope: Scope, params: seq<Param>): (r: Scope)
    ensures |r.names| <= |scope.names| + |params|
    ensures r.open == scope.open
    decreases |params|
  {
    if params == [] then scope else AddParams(scope.Add(params[0].name), params[1..])
  }

  /** The definition under any number of metadata layers. */
  predicate IsDefinition(e: Expr) {
    match e
    case Metadata(_, _, target) => IsDefinition(target)
    case Define(_, _, _, _) => true
    case _ => false
  }

  function Lookup<V>(entries: seq<(string, V)>, name: string): (r: Option<V>) {
    if entries == [] then None
    else if entries[0].0 == name then Some(entries[0].1)
    else Lookup(entries[1..], name)
  }

  /** `val * 10000` as the released program computes it, in 64 bits. */
  function Scaled(value: int): int {
    (value * 10000 + I64_LIMIT) % USIZE_LIMIT - I64_LIMIT
  }

  /** `parse_expr` */
  function Parse(ts: seq<Token>, scope: Scope, mods: Modules): (r: Result<(Expr, seq<Token>)>)
    requires ts != []
    ensures r.Ok? ==> r.value.1 != [] && |r.value.1| < |ts|
    decreases |ts|, 1
  {
    match ts[0]
    case Integer(value) => var rest :- Consume(ts); Ok((Expr.Integer(value), rest))
    case Text(text) => var rest :- Consume(ts); Ok((Expr.Text(text), rest))
    case DeBruijn(idx) => var rest :- Consume(ts); Ok((Expr.DeBruijn(idx), rest))
    case Identifier(name) =>
      var rest :- Consume(ts);
      (match scope.Resolve(name)
       case Some(idx) => Ok((Expr.DeBruijn(idx), rest))
       case None => Ok((Expr.Identifier(name), rest)))
    case Let => ParseLet(ts, scope, mods)
    case Define => ParseDefine(ts, scope, mods)
    case Shape => ParseShape(ts)
    case New => ParseNew(ts, scope, mods)
    case Get => ParseGet(ts, scope, mods)
    case Set => ParseSet(ts, scope, mods)
    case Bang =>
      var ts1 :- Consume(ts);
      var (name, rest) :- ConsumeName(ts1);
      Ok((Expand(name), rest))
    case Metadata => ParseMetadata(ts, scope, mods)
    case Export => ParseExport(ts, scope, mods)
    case Money => ParseMoney(ts, scope, mods)
    case Import => ParseImport(ts, mods)
    case Pack(n) => if n == 1 then ParseFormer(FPack, ts, scope, mods) else ParseUnpack(ts, scope, mods)
    case Map => ParseMap(ts, scope, mods)
    case Key(op) =>
      if op.TimeNow? then ParseTime(ts, scope, mods) else ParseFormer(FPrim(op), ts, scope, mods)
    case Float(_) => Err(NotModelled)
    case Router => Err(NotModelled)
    case EOF => Err(E001)
    case Bad => Err(E001)
    case _ => ParseFormer(FormerOf(ts[0]).value, ts, scope, mods)
  }

  /** A head of one token and its operands. */
  function ParseFormer(f: Former, ts: seq<Token>, scope: Scope, mods: Modules): (r: Result<(Expr, seq<Token>)>)
    requires ts != [] && !ts[0].EOF?
    ensures r.Ok? ==> r.value.1 != [] && |r.value.1| < |ts|
    ensures r.Ok? ==> !r.value.0.Define? && !r.value.0.Shape?
    decreases |ts|, 0
  {
    var ts1 :- Consume(ts);
    var (args, rest) :- ParseMany(Operands(f), ts1, scope, mods);
    Ok((Make(f, args), rest))
  }

  function ParseMany(n: nat, ts: seq<Token>, scope: Scope, mods: Modules): (r: Result<(Exprs, seq<Token>)>)
    requires ts != []
    ensures r.Ok? ==> r.value.1 != [] && |r.value.1| <= |ts| && Length(r.value.0) == n
    decreases |ts|, 2
  {
    if n == 0 then Ok((Nil, ts)) else
    var (head, ts1) :- Parse(ts, scope, mods);
    var (tail, rest) :- ParseMany(n - 1, ts1, scope, mods);
    Ok((Cons(head, tail), rest))
  }

  function ParseLet(ts: seq<Token>, scope: Scope, mods: Modules): (r: Result<(Expr, seq<Token>)>)
    requires ts != [] && ts[0].Let?
    ensures r.Ok? ==> r.value.1 != [] && |r.value.1| < |ts|
    ensures r.Ok? ==> r.value.0.Let?
    decreases |ts|, 0
  {
    var ts1 :- Consume(ts);
    var (name, ts2) :- ConsumeName(ts1);
    var (val, ts3) :- Parse(ts2, scope, mods);
    var (body, rest) :- Parse(ts3, scope.Add(name), mods);
    Ok((Expr.Let(name, val, body), rest))
  }

  function ParseDefine(ts: seq<Token>, scope: Scope, mods: Modules): (r: Result<(Expr, seq<Token>)>)
    requires ts != [] && ts[0].Define?
    ensures r.Ok? ==> r.value.1 != [] && |r.value.1| < |ts|
    ensures r.Ok? ==> r.value.0.Define? && !r.value.0.exported
    decreases |ts|, 0
  {
    var ts1 :- Consume(ts);
    var (name, ts2) :- ConsumeName(ts1);
    var (params, ts3) :- ParseParams(ts2);
    var (body, rest) :- Parse(ts3, AddParams(Scope(true, scope.names), params), mods);
    Ok((Expr.Define(name, params, body, false), rest))
  }

  function ParseShape(ts: seq<Token>): (r: Result<(Expr, seq<Token>)>)
    requires ts != [] && ts[0].Shape?
    ensures r.Ok? ==> r.value.1 != [] && |r.value.1| < |ts|
    ensures r.Ok? ==> r.value.0.Shape? && !r.value.0.exported
  {
    var ts1 :- Consume(ts);
    var (name, ts2) :- ConsumeName(ts1);
    var (fields, rest) :- ParseNames(ts2);
    Ok((Expr.Shape(name, fields, false), rest))
  }

  function ParseNew(ts: seq<Token>, scope: Scope, mods: Modules): (r: Result<(Expr, seq<Token>)>)
    requires ts != [] && ts[0].New?
    ensures r.Ok? ==> r.value.1 != [] && |r.value.1| < |ts|
    ensures r.Ok? ==> r.value.0.New?
    decreases |ts|, 0
  {
    var ts1 :- Consume(ts);
    var (name, ts2) :- ConsumeName(ts1);
    var (count, rest) :- Parse(ts2, scope, mods);
    Ok((Expr.New(name, count), rest))
  }

  function ParseExport(ts: seq<Token>, scope: Scope, mods: Modules): (r: Result<(Expr, seq<Token>)>)
    requires ts != [] && ts[0].Export?
    ensures r.Ok? ==> r.value.1 != [] && |r.value.1| < |ts|
    ensures r.Ok? ==> (r.value.0.Define? || r.value.0.Shape?) && r.value.0.exported
    decreases |ts|, 0
  {
    var ts1 :- Consume(ts);
    var (inner, rest) :- Parse(ts1, scope, mods);
    if inner.Define? || inner.Shape? then Ok((inner.(exported := true), rest)) else Err(E015)
  }

  function ParseUnpack(ts: seq<Token>, scope: Scope, mods: Modules): (r: Result<(Expr, seq<Token>)>)
    requires ts != [] && ts[0].Pack?
    ensures r.Ok? ==> r.value.1 != [] && |r.value.1| < |ts|
    ensures r.Ok? ==> r.value.0.Unpack?
    decreases |ts|, 0
  {
    var ts1 :- Consume(ts);
    var (json, ts2) :- Parse(ts1, scope, mods);
    var (shape, rest) :- ConsumeText(ts2);
    Ok((Unpack(json, shape), rest))
  }

  function ParseGet(ts: seq<Token>, scope: Scope, mods: Modules): (r: Result<(Expr, seq<Token>)>)
    requires ts != [] && ts[0].Get?
    ensures r.Ok? ==> r.value.1 != [] && |r.value.1| < |ts|
    ensures r.Ok? ==> r.value.0.Get?
    decreases |ts|, 0
  {
    var ts1 :- Consume(ts);
    var (inst, ts2) :- Parse(ts1, scope, mods);
    var (field, ts3) :- ConsumeName(ts2);
    var (index, rest) :- Parse(ts3, scope, mods);
    Ok((Expr.Get(inst, field, index), rest))
  }

  function ParseSet(ts: seq<Token>, scope: Scope, mods: Modules): (r: Result<(Expr, seq<Token>)>)
    requires ts != [] && ts[0].Set?
    ensures r.Ok? ==> r.value.1 != [] && |r.value.1| < |ts|
    ensures r.Ok? ==> r.value.0.Set?
    decreases |ts|, 0
  {
    var ts1 :- Consume(ts);
    var (inst, ts2) :- Parse(ts1, scope, mods);
    var (field, ts3) :- ConsumeName(ts2);
    var (index, ts4) :- Parse(ts3, scope, mods);
    var (val, rest) :- Parse(ts4, scope, mods);
    Ok((Expr.Set(inst, field, index, val), rest))
  }

  function ParseMetadata(ts: seq<Token>, scope: Scope, mods: Modules): (r: Result<(Expr, seq<Token>)>)
    requires ts != [] && ts[0].Metadata?
    ensures r.Ok? ==> r.value.1 != [] && |r.value.1| < |ts|
    ensures r.Ok? ==> r.value.0.Metadata?
    decreases |ts|, 0
  {
    var ts1 :- Consume(ts);
    var (tag, ts2) :- Parse(ts1, scope, mods);
    var (val, ts3) :- Parse(ts2, scope, mods);
    var (target, rest) :- Parse(ts3, scope, mods);
    if tag == Expr.Text("test") && !IsDefinition(target) then Err(E019)
    else Ok((Expr.Metadata(tag, val, target), rest))
  }

  function ParseMap(ts: seq<Token>, scope: Scope, mods: Modules): (r: Result<(Expr, seq<Token>)>)
    requires ts != [] && ts[0].Map?
    ensures r.Ok? ==> r.value.1 != [] && |r.value.1| < |ts|
    ensures r.Ok? ==> r.value.0.Map?
    decreases |ts|, 0
  {
    var ts1 :- Consume(ts);
    var (inst, ts2) :- Parse(ts1, scope, mods);
    var (field, ts3) :- ConsumeText(ts2);
    var (func, rest) :- Parse(ts3, scope, mods);
    Ok((Expr.Map(inst, field, func), rest))
  }

  function ParseMoney(ts: seq<Token>, scope: Scope, mods: Modules): (r: Result<(Expr, seq<Token>)>)
    requires ts != [] && ts[0].Money?
    ensures r.Ok? ==> r.value.1 != [] && |r.value.1| < |ts|
    ensures r.Ok? ==> r.value.0.Prim? || r.value.0.Integer?
    decreases |ts|, 0
  {
    var ts1 :- Consume(ts);
    match ts1[0]
    case Key(Str) => ParseFormer(FPrim(MoneyStr), ts1, scope, mods)
    case Op(b) => if b.Add? || b.Sub? || b.Mul? || b.Div? then ParseFormer(FPrim(MoneyArith(b)), ts1, scope, mods) else Err(E002)
    case Integer(value) => var rest :- Consume(ts1); Ok((Expr.Integer(Scaled(value)), rest))
    case Float(_) => Err(NotModelled)
    case _ => Err(E002)
  }

  function ParseTime(ts: seq<Token>, scope: Scope, mods: Modules): (r: Result<(Expr, seq<Token>)>)
    requires ts != [] && ts[0] == Key(TimeNow)
    ensures r.Ok? ==> r.value.1 != [] && |r.value.1| < |ts|
    ensures r.Ok? ==> r.value.0.Prim?
    decreases |ts|, 0
  {
    var ts1 :- Consume(ts);
    if IsPlusMinus(ts1[0]) then ParseFormer(FPrim(TimeArith(ts1[0].op)), ts1, scope, mods)
    else Ok((Prim(TimeNow, Nil), ts1))
  }

  predicate IsPlusMinus(t: Token) {
    t == Op(Add) || t == Op(Sub)
  }

  function ParseImport(ts: seq<Token>, mods: Modules): (r: Result<(Expr, seq<Token>)>)
    requires ts != [] && ts[0].Import?
    ensures r.Ok? ==> r.value.1 != [] && |r.value.1| < |ts|
    ensures r.Ok? ==> r.value.0.Import?
  {
    var ts1 :- Consume(ts);
    var ts2 :- Consume(ts1);
    if !ts1[0].Identifier? && ts1[0] != Key(HttpClient) then Err(E002) else
    var mod := if ts1[0].Identifier? then ts1[0].name else "http";
    var (symbol, rest) :- ConsumeName(ts2);
    if mod !in mods then Err(E017)
    else if Lookup(mods[mod].shapes, symbol).Some? then Err(NotModelled)
    else match Lookup(mods[mod].funcs, symbol)
    case Some(arity) => Ok((Expr.Import(mod, symbol, arity), rest))
    case None => Err(E018)
  }

  /** `parse_module` */
  function ParseModule(ts: seq<Token>, mods: Modules): Result<seq<Expr>>
    requires ts != []
    decreases |ts|
  {
    if ts[0].EOF? then Ok([]) else
    var (e, rest) :- Parse(ts, Scope(false, []), mods);
    var es :- ParseModule(rest, mods);
    Ok([e] + es)
  }

  /** Lexing and parsing a whole source text. */
  function ParseSource(source: string, u: Unicode, mods: Modules): Result<seq<Expr>> {
    ParseModule(Stream(source, u), mods)
  }
}
