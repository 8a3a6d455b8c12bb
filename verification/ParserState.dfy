/** The parser object of `src/compiler/parser/mod.rs`: it holds the lexer, the token it is at, and the
    scopes, and changes them as it consumes tokens. */
module ParserState {
  import opened Ast
  import opened Lexing
  import opened Parsing
  import opened Scanning
  import opened Wrappers

  function Flatten(scopes: seq<seq<string>>): seq<string> {
    if scopes == [] then [] else Flatten(scopes[..|scopes| - 1]) + scopes[|scopes| - 1]
  }

  function ScopeOf(scopes: seq<seq<string>>): Scope {
    Scope(scopes != [], Flatten(scopes))
  }

  lemma FlattenPush(scopes: seq<seq<string>>, scope: seq<string>)
    ensures Flatten(scopes + [scope]) == Flatten(scopes) + scope
  {
    assert (scopes + [scope])[..|scopes|] == scopes;
  }

  /** Resolving a name from the last one on. */
  lemma {:induction false} ResolveFrom(names: seq<string>, k: nat, name: string)
    requires k <= |names| && forall i | |names| - k <= i < |names| :: names[i] != name
    ensures Scope(true, names).Resolve(name) ==
      match Scope(true, names[..|names| - k]).Resolve(name)
      case Some(i) => Some(i + k)
      case None => None
    decreases k
  {
    if k == 0 {
      assert names[..|names|] == names;
    } else {
      var front := names[..|names| - 1];
      assert names[|names| - 1] != name;
      assert front[..|front| - (k - 1)] == names[..|names| - k];
      forall i | |front| - (k - 1) <= i < |front| ensures front[i] != name { assert front[i] == names[i]; }
      ResolveFrom(front, k - 1, name);
    }
  }

  lemma {:induction false} ResolveOpen(names: seq<string>, open: bool, name: string)
    ensures Scope(open, names).Resolve(name) == Scope(true, names).Resolve(name)
    decreases |names|
  {
    if names != [] {
      ResolveOpen(names[..|names| - 1], open, name);
    }
  }

  class Parser {
    const lexer: Lexer
    const mods: Modules
    var currentToken: Token
    var scopes: seq<seq<string>>

    ghost predicate Valid()
      reads this, lexer
    {
      && lexer.Valid()
      && currentToken != Bad
      && (currentToken.EOF? ==> lexer.Rest() == "")
    }

    /** The tokens ahead. */
    ghost function Ahead(): (ts: seq<Token>)
      reads this, lexer
      requires Valid()
      ensures ts != [] && ts[0] == currentToken
    {
      if currentToken.EOF? then [EOF] else [currentToken] + Stream(lexer.Rest(), lexer.u)
    }

    ghost function Names(): Scope
      reads this
    {
      ScopeOf(scopes)
    }

    /** `Parser::new`: the first token is read at once.  Without one there is no parser. */
    static method New(source: string, u: Unicode, mods: Modules) returns (p: Parsing.Result<Parser>)
      ensures p.Err? <==> Stream(source, u)[0] == Bad
      ensures p.Err? ==> p.error == E001
      ensures p.Ok? ==> fresh(p.value) && fresh(p.value.lexer) && p.value.mods == mods && p.value.scopes == []
      ensures p.Ok? ==> p.value.Valid() && p.value.Ahead() == Stream(source, u)
    {
      var lexer := new Lexer(source, u);
      var first := lexer.NextToken();
      if first == Bad { return Err(E001); }
      EndStays(source, u);
      var parser := new Parser(lexer, mods, first);
      return Ok(parser);
    }

    constructor (lexer: Lexer, mods: Modules, first: Token)
      ensures this.lexer == lexer && this.mods == mods && currentToken == first && scopes == []
    {
      this.lexer, this.mods := lexer, mods;
      currentToken, scopes := first, [];
    }

    /** `consume` */
    method Consume() returns (r: Parsing.Result<Token>)
      requires Valid()
      modifies this`currentToken, lexer
      ensures match Parsing.Consume(old(Ahead())) case Ok(ts) => r == Ok(old(currentToken)) && Valid() && Ahead() == ts case Err(e) => r == Err(e)
    {
      var tok := currentToken;
      ghost var s := lexer.Rest();
      EndStays(s, lexer.u);
      var next := lexer.NextToken();
      if next == Bad { return Err(E001); }
      currentToken := next;
      assert old(Ahead())[1..] == if tok.EOF? then [] else Stream(s, lexer.u);
      return Ok(tok);
    }

    /** A name, where one is required. */
    method TakeName() returns (r: Parsing.Result<string>)
      requires Valid()
      modifies this`currentToken, lexer
      ensures match ConsumeName(old(Ahead())) case Ok((name, ts)) => r == Ok(name) && Valid() && Ahead() == ts case Err(e) => r == Err(e)
    {
      var tok :- Consume();
      return if tok.Identifier? then Ok(tok.name) else Err(E002);
    }

    method TakeText() returns (r: Parsing.Result<string>)
      requires Valid()
      modifies this`currentToken, lexer
      ensures match ConsumeText(old(Ahead())) case Ok((text, ts)) => r == Ok(text) && Valid() && Ahead() == ts case Err(e) => r == Err(e)
    {
      var tok :- Consume();
      return if tok.Text? then Ok(tok.text) else Err(E002);
    }

    method PushScope()
      modifies this`scopes
      ensures scopes == old(scopes) + [[]] && Names() == Scope(true, old(Names()).names)
    {
      FlattenPush(scopes, []);
      scopes := scopes + [[]];
      assert Flatten(old(scopes)) + [] == Flatten(old(scopes));
    }

    method PopScope()
      requires scopes != []
      modifies this`scopes
      ensures scopes == old(scopes)[..|old(scopes)| - 1]
    {
      scopes := scopes[..|scopes| - 1];
    }

    /** `add_variable` */
    method AddVariable(name: string)
      modifies this`scopes
      ensures Names() == old(Names()).Add(name)
      ensures |scopes| == |old(scopes)|
      ensures scopes != [] ==> scopes == old(scopes)[..|scopes| - 1] + [old(scopes)[|scopes| - 1] + [name]]
    {
      if scopes != [] {
        ghost var front, last := scopes[..|scopes| - 1], scopes[|scopes| - 1];
        scopes := scopes[|scopes| - 1 := scopes[|scopes| - 1] + [name]];
        assert scopes[..|scopes| - 1] == front;
        assert Flatten(front) + (last + [name]) == Flatten(front) + last + [name];
      }
    }

    /** `resolve_variable` */
    method ResolveVariable(name: string) returns (r: Option<nat>)
      ensures r == Names().Resolve(name)
    {
      var index, s := 0, |scopes|;
      ghost var names := Flatten(scopes);
      assert scopes[..s] == scopes && names[..|names|] == names;
      while s > 0
        invariant 0 <= s <= |scopes| && 0 <= index <= |names|
        invariant Flatten(scopes[..s]) == names[..|names| - index]
        invariant forall i | |names| - index <= i < |names| :: names[i] != name
      {
        s := s - 1;
        assert scopes[..s + 1][..s] == scopes[..s];
        ghost var front := Flatten(scopes[..s]);
        Tail(names, |names| - index, front, scopes[s]);
        var found := FindLast(scopes[s], name);
        if found.Some? {
          ResolveAt(names, index + found.value, name, scopes != []);
          return Some(index + found.value);
        }
        index := index + |scopes[s]|;
      }
      ResolveFrom(names, |names|, name);
      ResolveOpen(names, scopes != [], name);
      return None;
    }

    /** What the parser returns and leaves agrees with what `spec` says. */
    ghost predicate Agrees(r: Parsing.Result<Expr>, spec: Parsing.Result<(Expr, seq<Token>)>)
      reads this, lexer
    {
      match spec
      case Ok((e, rest)) => r == Ok(e) && Valid() && Ahead() == rest
      case Err(error) => r == Err(error)
    }

    /** `parse_expr` */
    method ParseExpr() returns (r: Parsing.Result<Expr>)
      requires Valid()
      modifies this, lexer
      ensures Agrees(r, Parse(old(Ahead()), old(Names()), mods))
      ensures r.Ok? ==> scopes == old(scopes)
      decreases |Ahead()|, 3
    {
      hide ParseLet, ParseDefine, ParseShape, ParseNew, ParseGet, ParseSet, ParseMetadata, ParseExport, ParseMoney, ParseImport,
           ParseUnpack, ParseMap, ParseTime, ParseFormer, ParseMany, Parsing.Consume, ConsumeName, Stream, Flatten;
      var t := currentToken;
      match t
      case Integer(_) | Text(_) | DeBruijn(_) | Identifier(_) | Bang => r := ParseAtom();
      case Let => r := ParseBinding();
      case Define => r := ParseDefinition();
      case Shape => r := ParseFields();
      case New => r := ParseAllocation();
      case Get => r := ParseGetter();
      case Set => r := ParseSetter();
      case Metadata => r := ParseAnnotation();
      case Export => r := ParseExported();
      case Money => r := ParseAmount();
      case Import => r := ParseImported();
      case Pack(n) => if n == 1 { r := ParseOperator(FPack); } else { r := ParseJson(); }
      case Map => r := ParseMapping();
      case Key(op) => if op.TimeNow? { r := ParseClock(); } else { r := ParseOperator(FPrim(op)); }
      case Float(_) | Router => r := Err(NotModelled);
      case EOF | Bad => r := Err(E001);
      case _ => r := ParseOperator(FormerOf(t).value);
    }

    method ParseAtom() returns (r: Parsing.Result<Expr>)
      requires Valid()
      requires currentToken.Integer? || currentToken.Text? || currentToken.DeBruijn? || currentToken.Identifier? || currentToken.Bang?
      modifies this, lexer
      ensures Agrees(r, Parse(old(Ahead()), old(Names()), mods))
      ensures r.Ok? ==> scopes == old(scopes)
    {
      hide Stream, Flatten;
      var t := currentToken;
      if t.Bang? {
        var _ :- Consume();
        var name :- TakeName();
        return Ok(Expand(name));
      }
      var e := if t.Integer? then Expr.Integer(t.value) else if t.Text? then Expr.Text(t.text) else Expr.DeBruijn(0);
      if t.DeBruijn? {
        e := Expr.DeBruijn(t.idx);
      } else if t.Identifier? {
        var resolved := ResolveVariable(t.name);
        e := if resolved.Some? then Expr.DeBruijn(resolved.value) else Expr.Identifier(t.name);
      }
      var _ :- Consume();
      return Ok(e);
    }

    /** The constructs that consist of a head and a number of operands. */
    method ParseOperator(f: Former) returns (r: Parsing.Result<Expr>)
      requires Valid() && !currentToken.EOF?
      modifies this, lexer
      ensures Agrees(r, ParseFormer(f, old(Ahead()), old(Names()), mods))
      ensures r.Ok? ==> scopes == old(scopes)
      decreases |Ahead()|, 1
    {
      hide ParseMany, Stream, Flatten;
      var _ :- Consume();
      var args :- ParseOperands(Operands(f));
      return Ok(Make(f, args));
    }

    method ParseOperands(n: nat) returns (r: Parsing.Result<Exprs>)
      requires Valid()
      modifies this, lexer
      ensures match ParseMany(n, old(Ahead()), old(Names()), mods) case Ok((args, rest)) => r == Ok(args) && Valid() && Ahead() == rest case Err(e) => r == Err(e)
      ensures r.Ok? ==> scopes == old(scopes) && Length(r.value) == n
      decreases |Ahead()|, 4, n
    {
      hide Parse, Stream, Flatten;
      if n == 0 { return Ok(Nil); }
      var head :- ParseExpr();
      var tail :- ParseOperands(n - 1);
      return Ok(Cons(head, tail));
    }

    /** `L` */
    method ParseBinding() returns (r: Parsing.Result<Expr>)
      requires Valid() && currentToken.Let?
      modifies this, lexer
      ensures Agrees(r, ParseLet(old(Ahead()), old(Names()), mods))
      ensures r.Ok? ==> scopes == old(scopes)
      decreases |Ahead()|, 1
    {
      hide Parse, Stream, Flatten;
      var _ :- Consume();
      var name :- TakeName();
      var val :- ParseExpr();
      var body :- ParseBody(name);
      return Ok(Expr.Let(name, val, body));
    }

    /** The body of a binding, in which its name is known. */
    method ParseBody(name: string) returns (r: Parsing.Result<Expr>)
      requires Valid()
      modifies this, lexer
      ensures Agrees(r, Parse(old(Ahead()), old(Names()).Add(name), mods))
      ensures r.Ok? ==> scopes == old(scopes)
      decreases |Ahead()|, 4, 0
    {
      hide Parse, Stream, Flatten;
      ghost var before := scopes;
      AddVariable(name);
      var body :- ParseExpr();
      if scopes != [] {
        var top := scopes[|scopes| - 1];
        PopPushed(before, scopes, name);
        scopes := scopes[|scopes| - 1 := top[..|top| - 1]];
      }
      return Ok(body);
    }

    /** One parameter, behind those that were read. */
    method ParseParameter(ghost params: seq<Param>) returns (r: Parsing.Result<Param>)
      requires Valid() && scopes != [] && currentToken.Identifier?
      modifies this, lexer
      ensures r.Err? ==> AfterParam(params, old(Ahead())) == Err(r.error)
      ensures r.Ok? ==> Valid() && |Ahead()| < |old(Ahead())|
      ensures r.Ok? ==> AfterParam(params, old(Ahead())) == BehindParams(params + [r.value], ParseParams(Ahead()))
      ensures r.Ok? ==> Names() == old(Names()).Add(r.value.name)
      ensures r.Ok? ==> |scopes| == |old(scopes)| && scopes[..|scopes| - 1] == old(scopes)[..|scopes| - 1]
    {
      hide Stream, Flatten, ParseParams, BehindParams;
      var name := currentToken.name;
      var _ :- Consume();
      var expand := false;
      if currentToken.Bang? {
        var _ :- Consume();
        expand := true;
      }
      ghost var front := scopes[..|scopes| - 1];
      AddVariable(name);
      assert scopes[..|scopes| - 1] == front;
      return Ok(Param(name, expand));
    }

    /** The parameters of a definition, entered into the open scope as they are read. */
    method ParseParameters() returns (r: Parsing.Result<seq<Param>>)
      requires Valid() && scopes != []
      modifies this, lexer
      ensures match ParseParams(old(Ahead())) case Ok((params, rest)) => r == Ok(params) && Valid() && Ahead() == rest case Err(e) => r == Err(e)
      ensures r.Ok? ==> Names() == AddParams(old(Names()), r.value) && |scopes| == |old(scopes)| && scopes[..|scopes| - 1] == old(scopes)[..|scopes| - 1]
    {
      hide Stream, Flatten, ParseParams;
      var params: seq<Param> := [];
      ghost var whole := ParseParams(Ahead());
      BehindNone(whole);
      while currentToken.Identifier?
        invariant Valid() && |scopes| == |old(scopes)| && scopes[..|scopes| - 1] == old(scopes)[..|scopes| - 1]
        invariant whole == BehindParams(params, ParseParams(Ahead()))
        invariant Names() == AddParams(old(Names()), params)
        decreases |Ahead()|
      {
        BehindParam(params, Ahead());
        var p :- ParseParameter(params);
        AddParamsMore(old(Names()), params, p);
        params := params + [p];
      }
      NoParams(Ahead());
      assert params + [] == params;
      return Ok(params);
    }

    /** `:` */
    method ParseDefinition() returns (r: Parsing.Result<Expr>)
      requires Valid() && currentToken.Define?
      modifies this, lexer
      ensures Agrees(r, ParseDefine(old(Ahead()), old(Names()), mods))
      ensures r.Ok? ==> scopes == old(scopes)
      decreases |Ahead()|, 1
    {
      hide Parse, ParseParams, AddParams, Stream, Flatten;
      var _ :- Consume();
      var name :- TakeName();
      PushScope();
      var params :- ParseParameters();
      var body :- ParseExpr();
      PopScope();
      assert scopes == old(scopes);
      return Ok(Expr.Define(name, params, body, false));
    }

    /** `#` */
    method ParseFields() returns (r: Parsing.Result<Expr>)
      requires Valid() && currentToken.Shape?
      modifies this, lexer
      ensures Agrees(r, ParseShape(old(Ahead())))
      ensures r.Ok? ==> scopes == old(scopes)
    {
      hide Stream, Flatten;
      var _ :- Consume();
      var name :- TakeName();
      var fields: seq<string> := [];
      ghost var whole := ParseNames(Ahead());
      NamesNone(whole);
      while currentToken.Identifier?
        invariant Valid() && scopes == old(scopes)
        invariant whole == BehindNames(fields, ParseNames(Ahead()))
        decreases |Ahead()|
      {
        BehindName(fields, Ahead());
        var field := currentToken.name;
        var _ :- Consume();
        fields := fields + [field];
      }
      assert fields + [] == fields;
      return Ok(Expr.Shape(name, fields, false));
    }

    /** `N` */
    method ParseAllocation() returns (r: Parsing.Result<Expr>)
      requires Valid() && currentToken.New?
      modifies this, lexer
      ensures Agrees(r, ParseNew(old(Ahead()), old(Names()), mods))
      ensures r.Ok? ==> scopes == old(scopes)
      decreases |Ahead()|, 1
    {
      hide Parse, Stream, Flatten;
      var _ :- Consume();
      var name :- TakeName();
      var count :- ParseExpr();
      return Ok(Expr.New(name, count));
    }

    /** `G` */
    method ParseGetter() returns (r: Parsing.Result<Expr>)
      requires Valid() && currentToken.Get?
      modifies this, lexer
      ensures Agrees(r, ParseGet(old(Ahead()), old(Names()), mods))
      ensures r.Ok? ==> scopes == old(scopes)
      decreases |Ahead()|, 1
    {
      hide Parse, Stream, Flatten;
      var _ :- Consume();
      var inst :- ParseExpr();
      var field :- TakeName();
      var index :- ParseExpr();
      return Ok(Expr.Get(inst, field, index));
    }

    /** `S` */
    method ParseSetter() returns (r: Parsing.Result<Expr>)
      requires Valid() && currentToken.Set?
      modifies this, lexer
      ensures Agrees(r, ParseSet(old(Ahead()), old(Names()), mods))
      ensures r.Ok? ==> scopes == old(scopes)
      decreases |Ahead()|, 1
    {
      hide Parse, Stream, Flatten;
      var _ :- Consume();
      var inst :- ParseExpr();
      var field :- TakeName();
      var index :- ParseExpr();
      var val :- ParseExpr();
      return Ok(Expr.Set(inst, field, index, val));
    }

    /** `M`: the tag `test` is for definitions, under any number of further layers. */
    method ParseAnnotation() returns (r: Parsing.Result<Expr>)
      requires Valid() && currentToken.Metadata?
      modifies this, lexer
      ensures Agrees(r, ParseMetadata(old(Ahead()), old(Names()), mods))
      ensures r.Ok? ==> scopes == old(scopes)
      decreases |Ahead()|, 1
    {
      hide Parse, Stream, Flatten;
      var _ :- Consume();
      var tag :- ParseExpr();
      var val :- ParseExpr();
      var target :- ParseExpr();
      if tag.Text? && tag.text == "test" {
        var inner := target;
        while inner.Metadata?
          invariant IsDefinition(inner) == IsDefinition(target)
          decreases inner
        {
          inner := inner.target;
        }
        if !inner.Define? { return Err(E019); }
      }
      return Ok(Expr.Metadata(tag, val, target));
    }

    /** `X` */
    method ParseExported() returns (r: Parsing.Result<Expr>)
      requires Valid() && currentToken.Export?
      modifies this, lexer
      ensures Agrees(r, ParseExport(old(Ahead()), old(Names()), mods))
      ensures r.Ok? ==> scopes == old(scopes)
      decreases |Ahead()|, 1
    {
      hide Parse, Stream, Flatten;
      var _ :- Consume();
      var inner :- ParseExpr();
      if !inner.Define? && !inner.Shape? { return Err(E015); }
      return Ok(inner.(exported := true));
    }

    /** `%` */
    method ParseAmount() returns (r: Parsing.Result<Expr>)
      requires Valid() && currentToken.Money?
      modifies this, lexer
      ensures Agrees(r, ParseMoney(old(Ahead()), old(Names()), mods))
      ensures r.Ok? ==> scopes == old(scopes)
      decreases |Ahead()|, 2
    {
      hide Parse, ParseFormer, Stream, Flatten;
      var _ :- Consume();
      var t := currentToken;
      if t == Key(Str) {
        r := ParseOperator(FPrim(MoneyStr));
      } else if t.Op? {
        if t.op.Add? || t.op.Sub? || t.op.Mul? || t.op.Div? { r := ParseOperator(FPrim(MoneyArith(t.op))); } else { r := Err(E002); }
      } else if t.Integer? {
        var _ :- Consume();
        r := Ok(Expr.Integer(Scaled(t.value)));
      } else {
        r := if t.Float? then Err(NotModelled) else Err(E002);
      }
    }

    /** `I` */
    method ParseImported() returns (r: Parsing.Result<Expr>)
      requires Valid() && currentToken.Import?
      modifies this, lexer
      ensures Agrees(r, ParseImport(old(Ahead()), mods))
      ensures r.Ok? ==> scopes == old(scopes)
    {
      hide Stream, Flatten;
      var _ :- Consume();
      var t :- Consume();
      if !t.Identifier? && t != Key(HttpClient) { return Err(E002); }
      var mod := if t.Identifier? then t.name else "http";
      var symbol :- TakeName();
      if mod !in mods { return Err(E017); }
      if Lookup(mods[mod].shapes, symbol).Some? { return Err(NotModelled); }
      var arity := Lookup(mods[mod].funcs, symbol);
      return if arity.Some? then Ok(Expr.Import(mod, symbol, arity.value)) else Err(E018);
    }

    /** `ju` */
    method ParseJson() returns (r: Parsing.Result<Expr>)
      requires Valid() && currentToken.Pack?
      modifies this, lexer
      ensures Agrees(r, ParseUnpack(old(Ahead()), old(Names()), mods))
      ensures r.Ok? ==> scopes == old(scopes)
      decreases |Ahead()|, 1
    {
      hide Parse, Stream, Flatten;
      var _ :- Consume();
      var json :- ParseExpr();
      var shape :- TakeText();
      return Ok(Unpack(json, shape));
    }

    /** `map` */
    method ParseMapping() returns (r: Parsing.Result<Expr>)
      requires Valid() && currentToken.Map?
      modifies this, lexer
      ensures Agrees(r, ParseMap(old(Ahead()), old(Names()), mods))
      ensures r.Ok? ==> scopes == old(scopes)
      decreases |Ahead()|, 1
    {
      hide Parse, Stream, Flatten;
      var _ :- Consume();
      var inst :- ParseExpr();
      var field :- TakeText();
      var func :- ParseExpr();
      return Ok(Expr.Map(inst, field, func));
    }

    /** `tn`, alone or before an operator. */
    method ParseClock() returns (r: Parsing.Result<Expr>)
      requires Valid() && currentToken == Key(TimeNow)
      modifies this, lexer
      ensures Agrees(r, ParseTime(old(Ahead()), old(Names()), mods))
      ensures r.Ok? ==> scopes == old(scopes)
      decreases |Ahead()|, 2
    {
      hide Parse, ParseFormer, Stream, Flatten;
      var _ :- Consume();
      if IsPlusMinus(currentToken) {
        r := ParseOperator(FPrim(TimeArith(currentToken.op)));
      } else {
        r := Ok(Prim(TimeNow, Nil));
      }
    }

    /** `parse_module` */
    method ParseAll() returns (r: Parsing.Result<seq<Expr>>)
      requires Valid() && scopes == []
      modifies this, lexer
      ensures r == ParseModule(old(Ahead()), mods)
    {
      hide Parse, Stream, Flatten;
      var expressions: seq<Expr> := [];
      ghost var whole := ParseModule(Ahead(), mods);
      AllNone(whole);
      while !currentToken.EOF?
        invariant Valid() && scopes == []
        invariant whole == BehindAll(expressions, ParseModule(Ahead(), mods))
        decreases |Ahead()|
      {
        ghost var s := Ahead();
        BehindExpr(expressions, s, mods);
        NoScope();
        var e :- ParseExpr();
        expressions := expressions + [e];
      }
      assert expressions + [] == expressions;
      return Ok(expressions);
    }
  }

  lemma PopPushed(before: seq<seq<string>>, after: seq<seq<string>>, name: string)
    requires before != [] && after == before[..|before| - 1] + [before[|before| - 1] + [name]]
    ensures |after| == |before| && after[|after| - 1] != []
    ensures var top := after[|after| - 1]; after[|after| - 1 := top[..|top| - 1]] == before
  {
    assert (before[|before| - 1] + [name])[..|before[|before| - 1]|] == before[|before| - 1];
  }

  lemma NoScope()
    ensures ScopeOf([]) == Scope(false, [])
  {
  }

  /** What was read, and what is parsed behind it. */
  function BehindParams(params: seq<Param>, r: Parsing.Result<(seq<Param>, seq<Token>)>): Parsing.Result<(seq<Param>, seq<Token>)> {
    match r
    case Ok((more, rest)) => Ok((params + more, rest))
    case Err(e) => Err(e)
  }

  lemma BehindNone(r: Parsing.Result<(seq<Param>, seq<Token>)>)
    ensures BehindParams([], r) == r
  {
    if r.Ok? { assert [] + r.value.0 == r.value.0; }
  }

  /** One more parameter moves from what is ahead to what was read. */
  function AfterParam(params: seq<Param>, ts: seq<Token>): Parsing.Result<(seq<Param>, seq<Token>)>
    requires ts != [] && ts[0].Identifier?
  {
    match Parsing.Consume(ts)
    case Err(e) => Err(e)
    case Ok(ts1) =>
      if ts1[0].Bang? then
        match Parsing.Consume(ts1)
        case Err(e) => Err(e)
        case Ok(ts2) => BehindParams(params + [Param(ts[0].name, true)], ParseParams(ts2))
      else BehindParams(params + [Param(ts[0].name, false)], ParseParams(ts1))
  }

  lemma BehindParam(params: seq<Param>, ts: seq<Token>)
    requires ts != [] && ts[0].Identifier?
    ensures BehindParams(params, ParseParams(ts)) == AfterParam(params, ts)
  {
    ParamsHead(ts);
    hide ParseParams;
    var c := Parsing.Consume(ts);
    if c.Ok? {
      var ts1 := c.value;
      if ts1[0].Bang? {
        var d := Parsing.Consume(ts1);
        if d.Ok? { BehindOne(params, Param(ts[0].name, true), ParseParams(d.value)); }
      } else {
        BehindOne(params, Param(ts[0].name, false), ParseParams(ts1));
      }
    }
  }

  /** One parameter, and what is parsed behind it. */
  lemma ParamsHead(ts: seq<Token>)
    requires ts != [] && ts[0].Identifier?
    ensures ParseParams(ts) == AfterParam([], ts)
  {
    var c := Parsing.Consume(ts);
    if c.Ok? {
      var ts1 := c.value;
      var d := if ts1[0].Bang? then Parsing.Consume(ts1) else c;
      if d.Ok? && ParseParams(d.value).Ok? {
        hide Parsing.Consume;
        FrontParam(Param(ts[0].name, ts1[0].Bang?), ParseParams(d.value).value.0);
      }
    }
  }

  lemma NoParams(ts: seq<Token>)
    requires ts != [] && !ts[0].Identifier?
    ensures ParseParams(ts) == Ok(([], ts))
  {
  }

  lemma FrontParam(p: Param, more: seq<Param>)
    ensures [] + [p] + more == [p] + more
  {
  }

  lemma BehindOne(params: seq<Param>, p: Param, r: Parsing.Result<(seq<Param>, seq<Token>)>)
    ensures BehindParams(params, BehindParams([] + [p], r)) == BehindParams(params + [p], r)
  {
    if r.Ok? {
      assert params + ([] + [p] + r.value.0) == params + [p] + r.value.0;
    }
  }

  lemma {:induction false} AddParamsMore(scope: Scope, params: seq<Param>, p: Param)
    ensures AddParams(scope, params + [p]) == AddParams(scope, params).Add(p.name)
    decreases |params|
  {
    if params == [] {
      assert [p][1..] == [] && params + [p] == [p];
    } else {
      assert (params + [p])[1..] == params[1..] + [p];
      AddParamsMore(scope.Add(params[0].name), params[1..], p);
    }
  }

  function BehindNames(names: seq<string>, r: Parsing.Result<(seq<string>, seq<Token>)>): Parsing.Result<(seq<string>, seq<Token>)> {
    match r
    case Ok((more, rest)) => Ok((names + more, rest))
    case Err(e) => Err(e)
  }

  lemma NamesNone(r: Parsing.Result<(seq<string>, seq<Token>)>)
    ensures BehindNames([], r) == r
  {
    if r.Ok? { assert [] + r.value.0 == r.value.0; }
  }

  function AfterName(names: seq<string>, ts: seq<Token>): Parsing.Result<(seq<string>, seq<Token>)>
    requires ts != [] && ts[0].Identifier?
  {
    match Parsing.Consume(ts)
    case Err(e) => Err(e)
    case Ok(ts1) => BehindNames(names + [ts[0].name], ParseNames(ts1))
  }

  lemma BehindName(names: seq<string>, ts: seq<Token>)
    requires ts != [] && ts[0].Identifier?
    ensures BehindNames(names, ParseNames(ts)) == AfterName(names, ts)
  {
    var c := Parsing.Consume(ts);
    if c.Ok? && ParseNames(c.value).Ok? {
      var more := ParseNames(c.value).value.0;
      assert names + ([ts[0].name] + more) == names + [ts[0].name] + more;
    }
  }

  function BehindAll(es: seq<Expr>, r: Parsing.Result<seq<Expr>>): Parsing.Result<seq<Expr>> {
    match r
    case Ok(more) => Ok(es + more)
    case Err(e) => Err(e)
  }

  lemma AllNone(r: Parsing.Result<seq<Expr>>)
    ensures BehindAll([], r) == r
  {
    if r.Ok? { assert [] + r.value == r.value; }
  }

  function AfterExpr(es: seq<Expr>, ts: seq<Token>, mods: Modules): Parsing.Result<seq<Expr>>
    requires ts != [] && !ts[0].EOF?
  {
    match Parse(ts, Scope(false, []), mods)
    case Err(e) => Err(e)
    case Ok((e, rest)) => BehindAll(es + [e], ParseModule(rest, mods))
  }

  lemma BehindExpr(es: seq<Expr>, ts: seq<Token>, mods: Modules)
    requires ts != [] && !ts[0].EOF?
    ensures BehindAll(es, ParseModule(ts, mods)) == AfterExpr(es, ts, mods)
  {
    hide Parse;
    var r := Parse(ts, Scope(false, []), mods);
    if r.Ok? && ParseModule(r.value.1, mods).Ok? {
      var more := ParseModule(r.value.1, mods).value;
      assert es + ([r.value.0] + more) == es + [r.value.0] + more;
    }
  }

  method FindLast(scope: seq<string>, name: string) returns (r: Option<nat>)
    ensures r.Some? ==> r.value < |scope| && scope[|scope| - 1 - r.value] == name
    ensures forall k | |scope| - (if r.Some? then r.value else |scope|) <= k < |scope| :: scope[k] != name
  {
    var i := 0;
    while i < |scope|
      invariant 0 <= i <= |scope| && forall k | |scope| - i <= k < |scope| :: scope[k] != name
    {
      if scope[|scope| - 1 - i] == name { return Some(i); }
      i := i + 1;
    }
    return None;
  }

  /** The names of the last scope among all. */
  lemma Tail(names: seq<string>, n: nat, front: seq<string>, scope: seq<string>)
    requires n <= |names| && names[..n] == front + scope
    ensures |front| + |scope| == n && names[..n - |scope|] == front
    ensures forall k | n - |scope| <= k < n :: names[k] == scope[k - (n - |scope|)]
  {
    assert |names[..n]| == n;
    assert names[..n - |scope|] == names[..n][..|front|];
    forall k | n - |scope| <= k < n ensures names[k] == scope[k - (n - |scope|)] { assert names[k] == names[..n][k]; }
  }

  lemma ResolveAt(names: seq<string>, k: nat, name: string, open: bool)
    requires k < |names| && names[|names| - 1 - k] == name && forall i | |names| - k <= i < |names| :: names[i] != name
    ensures Scope(open, names).Resolve(name) == Some(k)
  {
    ResolveFrom(names, k, name);
    ResolveOpen(names, open, name);
    assert names[..|names| - k][|names| - k - 1] == name;
  }

  /** At the end of the input the lexer stays at the end. */
  lemma {:induction false} EndStays(s: string, u: Unicode)
    ensures Next(s, u).0 == EOF ==> Next(s, u).1 == ""
    ensures Stream(s, u)[0] == Next(s, u).0
    decreases |s|
  {
    if s != "" {
      if IsSpace(s[0]) {
        EndStays(s[1..], u);
      } else if s[0] == '/' && |s| > 1 && s[1] == '/' {
        EndStays(AfterLine(s[1..]), u);
      } else if Punctuation(s[0]).None? && !IsDigit(s[0]) && (IsLetter(s[0]) || s[0] == '_') {
        KeywordNotEnd(s[..WordRun(s, u)]);
      }
    }
  }

  lemma KeywordNotEnd(w: string)
    ensures Keyword(w) != EOF
  {
  }
}
