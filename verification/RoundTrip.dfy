/** Printing a parsed module and parsing the print: when the syntax trees come back. */
module RoundTripping {
  import opened Ast
  import opened Lexing
  import opened Parsing
  import opened Printing
  import opened Relexing
  import opened PrintLexing
  import opened Mirroring
  import opened Wrappers

  /** The parser looks at the token after an expression to see whether a list of names goes on, whether
      an arithmetic operator turns `tn` into one of its own, and whether a mark follows a parameter.
      `b` in the place of `a` does not make it go on where it stopped at `a`. */
  predicate Follows(a: Token, b: Token) {
    && (b.Identifier? ==> a.Identifier?)
    && (IsPlusMinus(b) ==> IsPlusMinus(a))
    && (b.Bang? ==> a.Bang?)
  }

  predicate Ready(rest: seq<Token>, next: seq<Token>) {
    rest != [] && next != [] && next[0] != Bad && Follows(rest[0], next[0])
  }

  /** The tokens of `e` parse to `e` again and leave `next`. */
  predicate Again(e: Expr, next: seq<Token>, scope: Scope, mods: Modules) {
    Parse(Tokens(e) + next, scope, mods) == Ok((e, next))
  }

  lemma ConsumeHead(t: Token, rest: seq<Token>)
    requires !t.EOF? && rest != [] && rest[0] != Bad
    ensures ([t] + rest)[0] == t && Consume([t] + rest) == Ok(rest)
  {
    assert ([t] + rest)[1..] == rest;
  }

  lemma TokensHead(e: Expr)
    ensures !Tokens(e)[0].EOF? && !Tokens(e)[0].Bad?
  {
  }

  lemma FirstOfFormer(f: Former, ts: seq<Token>, scope: Scope, mods: Modules)
    requires ts != [] && !ts[0].EOF? && HeadTokens(f) != [] && ParseFormer(f, ts, scope, mods).Ok?
    ensures Tokens(ParseFormer(f, ts, scope, mods).value.0)[0] == HeadTokens(f)[0]
  {
    var ts1 := Consume(ts).value;
    MakeTokens(f, ParseMany(Operands(f), ts1, scope, mods).value.0);
  }

  lemma ParsesFormer(ts: seq<Token>, scope: Scope, mods: Modules)
    requires ts != [] && FormerOf(ts[0]).Some? && ts[0] != Key(TimeNow)
    ensures !ts[0].EOF? && Parse(ts, scope, mods) == ParseFormer(FormerOf(ts[0]).value, ts, scope, mods)
  {
  }

  /** What follows an expression in the print is no more inviting than what followed it in the source. */
  lemma FirstToken(ts: seq<Token>, scope: Scope, mods: Modules, u: Unicode)
    requires ts != [] && AllValid(ts, u) && Parse(ts, scope, mods).Ok?
    ensures Follows(ts[0], Tokens(Parse(ts, scope, mods).value.0)[0])
  {
    if FormerOf(ts[0]).Some? && ts[0] != Key(TimeNow) {
      var f := FormerOf(ts[0]).value;
      ParsesFormer(ts, scope, mods);
      assert HeadTokens(f) == [ts[0]];
      FirstOfFormer(f, ts, scope, mods);
    } else if ts[0].Money? {
      FirstOfMoney(ts, scope, mods);
    } else if ts[0] == Key(TimeNow) {
      FirstOfTime(ts, scope, mods);
    } else {
      FirstOfOther(ts, scope, mods);
    }
  }

  lemma FirstOfOther(ts: seq<Token>, scope: Scope, mods: Modules)
    requires ts != [] && Parse(ts, scope, mods).Ok?
    requires FormerOf(ts[0]).None? && !ts[0].Money?
    ensures Follows(ts[0], Tokens(Parse(ts, scope, mods).value.0)[0])
  {
    hide ParseLet, ParseDefine, ParseGet, ParseSet, ParseMetadata, ParseMap, ParseImport, ParseShape, ParseNew, ParseExport, ParseUnpack;
    var e := Parse(ts, scope, mods).value.0;
    match ts[0]
    case Let => assert e.Let?;
    case Define => assert e.Define?;
    case Get => assert e.Get?;
    case Set => assert e.Set?;
    case Metadata => assert e.Metadata?;
    case Map => assert e.Map?;
    case Import => assert e.Import?;
    case Shape => assert e.Shape?;
    case New => assert e.New?;
    case Export => assert e.exported;
    case Pack(_) => assert e.Unpack?;
    case _ =>
  }

  lemma FirstOfMoney(ts: seq<Token>, scope: Scope, mods: Modules)
    requires ts != [] && ts[0].Money? && ParseMoney(ts, scope, mods).Ok?
    ensures Follows(ts[0], Tokens(ParseMoney(ts, scope, mods).value.0)[0])
  {
    var ts1 := Consume(ts).value;
    if ts1[0] == Key(Str) {
      FirstOfFormer(FPrim(MoneyStr), ts1, scope, mods);
    } else if ts1[0].Op? {
      FirstOfFormer(FPrim(MoneyArith(ts1[0].op)), ts1, scope, mods);
    }
  }

  lemma FirstOfTime(ts: seq<Token>, scope: Scope, mods: Modules)
    requires ts != [] && ts[0] == Key(TimeNow) && ParseTime(ts, scope, mods).Ok?
    ensures Follows(ts[0], Tokens(ParseTime(ts, scope, mods).value.0)[0])
  {
    var ts1 := Consume(ts).value;
    if IsPlusMinus(ts1[0]) {
      FirstOfFormer(FPrim(TimeArith(ts1[0].op)), ts1, scope, mods);
    }
  }

  /** The tokens of the expression parsed at `ts`, then `next`, may stand where `ts` stood. */
  lemma ReadyWith(ts: seq<Token>, scope: Scope, mods: Modules, u: Unicode, next: seq<Token>)
    requires ts != [] && AllValid(ts, u) && Parse(ts, scope, mods).Ok?
    ensures Ready(ts, Tokens(Parse(ts, scope, mods).value.0) + next)
  {
    FirstToken(ts, scope, mods, u);
    TokensHead(Parse(ts, scope, mods).value.0);
  }

  lemma {:induction false} ParamsAgain(ts: seq<Token>, next: seq<Token>)
    requires ts != [] && ParseParams(ts).Ok? && Ready(ParseParams(ts).value.1, next)
    ensures ParseParams(ParamsTokens(ParseParams(ts).value.0) + next) == Ok((ParseParams(ts).value.0, next))
    ensures ParamsTokens(ParseParams(ts).value.0) + next != []
    ensures Ready(ts, ParamsTokens(ParseParams(ts).value.0) + next)
    decreases |ts|
  {
    var (params, rest) := ParseParams(ts).value;
    if !ts[0].Identifier? {
      assert [] + next == next;
    } else {
      var ts1 := Consume(ts).value;
      if ts1[0].Bang? {
        var ts2 := Consume(ts1).value;
        ParamsAgain(ts2, next);
        assert params[1..] == ParseParams(ts2).value.0;
        ParamsParts(params, ParamsTokens(params[1..]) + next, next);
      } else {
        ParamsAgain(ts1, next);
        assert params[1..] == ParseParams(ts1).value.0;
        ParamsParts(params, ParamsTokens(params[1..]) + next, next);
      }
    }
  }

  lemma {:induction false} ParamsParts(params: seq<Param>, after: seq<Token>, next: seq<Token>)
    requires params != [] && after != [] && after[0] != Bad && after == ParamsTokens(params[1..]) + next
    requires ParseParams(after) == Ok((params[1..], next)) && (after[0].Bang? ==> params[0].expand)
    ensures ParseParams(ParamsTokens(params) + next) == Ok((params, next))
    ensures (ParamsTokens(params) + next)[0] == Token.Identifier(params[0].name)
  {
    var name := Token.Identifier(params[0].name);
    assert [params[0]] + params[1..] == params;
    if params[0].expand {
      ConsumeHead(Bang, after);
      ConsumeHead(name, [Bang] + after);
      OrderThree([name], [Bang], ParamsTokens(params[1..]), next);
    } else {
      ConsumeHead(name, after);
      assert [name] + [] == [name];
      OrderTwo([name], ParamsTokens(params[1..]), next);
    }
  }

  lemma {:induction false} NamesAgain(ts: seq<Token>, next: seq<Token>)
    requires ts != [] && ParseNames(ts).Ok? && Ready(ParseNames(ts).value.1, next)
    ensures ParseNames(NamesTokens(ParseNames(ts).value.0) + next) == Ok((ParseNames(ts).value.0, next))
    ensures var after := NamesTokens(ParseNames(ts).value.0) + next; after != [] && after[0] != Bad
    decreases |ts|
  {
    var (names, rest) := ParseNames(ts).value;
    if !ts[0].Identifier? {
      assert [] + next == next;
    } else {
      var ts1 := Consume(ts).value;
      NamesAgain(ts1, next);
      assert names[1..] == ParseNames(ts1).value.0;
      NamesParts(names, NamesTokens(names[1..]) + next, next);
    }
  }

  lemma NamesParts(names: seq<string>, after: seq<Token>, next: seq<Token>)
    requires names != [] && after != [] && after[0] != Bad && after == NamesTokens(names[1..]) + next
    requires ParseNames(after) == Ok((names[1..], next))
    ensures NamesTokens(names) + next == [Token.Identifier(names[0])] + after
    ensures ParseNames(NamesTokens(names) + next) == Ok((names, next))
  {
    NamesOrder(names, next);
    ConsumeHead(Token.Identifier(names[0]), after);
    hide NamesTokens;
    assert [names[0]] + names[1..] == names;
  }

  lemma NamesOrder(names: seq<string>, next: seq<Token>)
    requires names != []
    ensures NamesTokens(names) + next == [Token.Identifier(names[0])] + (NamesTokens(names[1..]) + next)
  {
  }

  /** The tokens of a parsed expression parse to the same expression. */
  lemma {:induction false} Reparse(ts: seq<Token>, scope: Scope, mods: Modules, u: Unicode, next: seq<Token>)
    requires ts != [] && AllValid(ts, u) && |scope.names| + |ts| <= USIZE_LIMIT
    requires Parse(ts, scope, mods).Ok? && Ready(Parse(ts, scope, mods).value.1, next)
    ensures Again(Parse(ts, scope, mods).value.0, next, scope, mods)
    decreases |ts|, 3
  {
    if ts[0] == Key(TimeNow) {
      TimeAgain(ts, scope, mods, u, next);
    } else if FormerOf(ts[0]).Some? {
      ParsesFormer(ts, scope, mods);
      FormersAgain(FormerOf(ts[0]).value, ts, scope, mods, u, next);
    } else {
      OthersAgain(ts, scope, mods, u, next);
    }
  }

  lemma {:induction false} OthersAgain(ts: seq<Token>, scope: Scope, mods: Modules, u: Unicode, next: seq<Token>)
    requires ts != [] && AllValid(ts, u) && |scope.names| + |ts| <= USIZE_LIMIT
    requires Parse(ts, scope, mods).Ok? && Ready(Parse(ts, scope, mods).value.1, next)
    requires FormerOf(ts[0]).None?
    ensures Again(Parse(ts, scope, mods).value.0, next, scope, mods)
    decreases |ts|, 2
  {
    if ts[0].Let? {
      LetAgain(ts, scope, mods, u, next);
    } else if ts[0].Define? {
      DefineAgain(ts, scope, mods, u, next);
    } else if ts[0].Get? {
      GetAgain(ts, scope, mods, u, next);
    } else if ts[0].Set? {
      SetAgain(ts, scope, mods, u, next);
    } else if ts[0].Metadata? {
      MetadataAgain(ts, scope, mods, u, next);
    } else if ts[0].Map? {
      MapAgain(ts, scope, mods, u, next);
    } else if ts[0].Money? {
      MoneyAgain(ts, scope, mods, u, next);
    } else if ts[0].Import? {
      ImportAgain(ts, scope, mods, next);
    } else if ts[0].Shape? {
      ShapeAgain(ts, scope, mods, next);
    } else if ts[0].New? {
      NewAgain(ts, scope, mods, u, next);
    } else if ts[0].Export? {
      ExportAgain(ts, scope, mods, u, next);
    } else if ts[0].Pack? {
      UnpackAgain(ts, scope, mods, u, next);
    } else {
      AtomAgain(ts, scope, mods, next);
    }
  }

  lemma AtomAgain(ts: seq<Token>, scope: Scope, mods: Modules, next: seq<Token>)
    requires ts != [] && Parse(ts, scope, mods).Ok? && Ready(Parse(ts, scope, mods).value.1, next)
    requires ts[0].Integer? || ts[0].Text? || ts[0].DeBruijn? || ts[0].Identifier? || ts[0].Bang?
    ensures Again(Parse(ts, scope, mods).value.0, next, scope, mods)
  {
    var e := Parse(ts, scope, mods).value.0;
    if ts[0].Bang? {
      ExpandAgain(ConsumeName(Consume(ts).value).value.0, next, scope, mods);
    } else {
      assert e.Integer? || e.Text? || e.DeBruijn? || e.Identifier?;
      assert e.Identifier? ==> scope.Resolve(e.name).None?;
      LeafAgain(e, next, scope, mods);
    }
  }

  lemma ExpandAgain(name: string, next: seq<Token>, scope: Scope, mods: Modules)
    requires next != [] && next[0] != Bad
    ensures Again(Expand(name), next, scope, mods)
  {
    ConsumeHead(Token.Identifier(name), next);
    ConsumeHead(Bang, [Token.Identifier(name)] + next);
    OrderTwo([Bang], [Token.Identifier(name)], next);
  }

  lemma LeafAgain(e: Expr, next: seq<Token>, scope: Scope, mods: Modules)
    requires next != [] && next[0] != Bad
    requires e.Integer? || e.Text? || e.DeBruijn? || (e.Identifier? && scope.Resolve(e.name).None?)
    ensures Again(e, next, scope, mods)
  {
    var t := Tokens(e)[0];
    assert Tokens(e) == [t];
    ConsumeHead(t, next);
  }

  /** A head of one token and its operands. */
  lemma {:induction false} FormerAgain(f: Former, head: Token, ts: seq<Token>, scope: Scope, mods: Modules, u: Unicode, next: seq<Token>)
    requires ts != [] && !ts[0].EOF? && AllValid(ts, u) && |scope.names| + |ts| <= USIZE_LIMIT && !head.EOF?
    requires ParseFormer(f, ts, scope, mods).Ok? && Ready(ParseFormer(f, ts, scope, mods).value.1, next)
    ensures var args := ParseMany(Operands(f), Consume(ts).value, scope, mods).value.0;
      ParseFormer(f, [head] + (TokensAll(args) + next), scope, mods) == Ok((Make(f, args), next))
    decreases |ts|, 0
  {
    var ts1 := Consume(ts).value;
    ManyAgain(Operands(f), ts1, scope, mods, u, next);
    ConsumeHead(head, TokensAll(ParseMany(Operands(f), ts1, scope, mods).value.0) + next);
  }

  lemma {:induction false} FormersAgain(f: Former, ts: seq<Token>, scope: Scope, mods: Modules, u: Unicode, next: seq<Token>)
    requires ts != [] && AllValid(ts, u) && |scope.names| + |ts| <= USIZE_LIMIT
    requires FormerOf(ts[0]) == Some(f) && ts[0] != Key(TimeNow)
    requires ParseFormer(f, ts, scope, mods).Ok? && Ready(ParseFormer(f, ts, scope, mods).value.1, next)
    ensures Again(ParseFormer(f, ts, scope, mods).value.0, next, scope, mods)
    decreases |ts|, 1
  {
    var args := ParseMany(Operands(f), Consume(ts).value, scope, mods).value.0;
    FormerAgain(f, ts[0], ts, scope, mods, u, next);
    MakeTokens(f, args);
    assert HeadTokens(f) == [ts[0]];
    OrderTwo([ts[0]], TokensAll(args), next);
    ParsesFormer([ts[0]] + (TokensAll(args) + next), scope, mods);
  }

  lemma OrderTwo(a: seq<Token>, b: seq<Token>, next: seq<Token>)
    ensures a + b + next == a + (b + next)
  {
  }

  lemma OrderThree(a: seq<Token>, b: seq<Token>, c: seq<Token>, next: seq<Token>)
    ensures a + b + c + next == a + (b + (c + next))
  {
  }

  lemma OrderFour(a: seq<Token>, b: seq<Token>, c: seq<Token>, d: seq<Token>, next: seq<Token>)
    ensures a + b + c + d + next == a + (b + (c + (d + next)))
  {
  }

  lemma {:induction false} ManyAgain(n: nat, ts: seq<Token>, scope: Scope, mods: Modules, u: Unicode, next: seq<Token>)
    requires ts != [] && AllValid(ts, u) && |scope.names| + |ts| <= USIZE_LIMIT
    requires ParseMany(n, ts, scope, mods).Ok? && Ready(ParseMany(n, ts, scope, mods).value.1, next)
    ensures var args := ParseMany(n, ts, scope, mods).value.0;
      Ready(ts, TokensAll(args) + next) && ParseMany(n, TokensAll(args) + next, scope, mods) == Ok((args, next))
    decreases |ts|, 4
  {
    hide Parse;
    var args := ParseMany(n, ts, scope, mods).value.0;
    if n == 0 {
      assert [] + next == next;
    } else {
      var (head, ts1) := Parse(ts, scope, mods).value;
      ParsedPrintable(ts, scope, mods, u);
      ManyAgain(n - 1, ts1, scope, mods, u, next);
      var after := TokensAll(args.tail) + next;
      Reparse(ts, scope, mods, u, after);
      ReadyWith(ts, scope, mods, u, after);
      ManyParts(n, Tokens(head) + after, head, after, args.tail, next, scope, mods);
      OrderTwo(Tokens(head), TokensAll(args.tail), next);
    }
  }

  lemma ManyParts(n: nat, s: seq<Token>, head: Expr, after: seq<Token>, tail: Exprs, next: seq<Token>, scope: Scope, mods: Modules)
    requires n > 0 && s != [] && after != [] && Parse(s, scope, mods) == Ok((head, after))
    requires ParseMany(n - 1, after, scope, mods) == Ok((tail, next))
    ensures ParseMany(n, s, scope, mods) == Ok((Cons(head, tail), next))
  {
    hide Parse;
  }

  /** `tn` and `%` before an operator. */
  lemma {:induction false} PairAgain(op: PrimOp, ts: seq<Token>, scope: Scope, mods: Modules, u: Unicode, next: seq<Token>)
    requires ts != [] && !ts[0].EOF? && AllValid(ts, u) && |scope.names| + |ts| <= USIZE_LIMIT
    requires ParseFormer(FPrim(op), ts, scope, mods).Ok? && Ready(ParseFormer(FPrim(op), ts, scope, mods).value.1, next)
    requires |PrimTokens(op)| == 2 && PrimTokens(op)[1] == ts[0] && (ts[0].Op? || ts[0].Key?)
    ensures var e := ParseFormer(FPrim(op), ts, scope, mods).value.0;
      exists after {:trigger [PrimTokens(op)[0]] + after} :: after != [] && after[0] == ts[0] && Tokens(e) + next == [PrimTokens(op)[0]] + after
        && ParseFormer(FPrim(op), after, scope, mods) == Ok((e, next)) && Consume([PrimTokens(op)[0]] + after) == Ok(after)
    decreases |ts|, 1
  {
    hide Parse;
    FormerAgain(FPrim(op), ts[0], ts, scope, mods, u, next);
    var args := ParseMany(Arity(op), Consume(ts).value, scope, mods).value.0;
    MakeTokens(FPrim(op), args);
    var after := [ts[0]] + (TokensAll(args) + next);
    var first := PrimTokens(op)[0];
    ConsumeHead(first, after);
    assert PrimTokens(op) == [first] + [ts[0]];
    OrderThree([first], [ts[0]], TokensAll(args), next);
  }

  lemma {:induction false} TimeAgain(ts: seq<Token>, scope: Scope, mods: Modules, u: Unicode, next: seq<Token>)
    requires ts != [] && ts[0] == Key(TimeNow) && AllValid(ts, u) && |scope.names| + |ts| <= USIZE_LIMIT
    requires ParseTime(ts, scope, mods).Ok? && Ready(ParseTime(ts, scope, mods).value.1, next)
    ensures Again(ParseTime(ts, scope, mods).value.0, next, scope, mods)
    decreases |ts|, 2
  {
    var ts1 := Consume(ts).value;
    var e := ParseTime(ts, scope, mods).value.0;
    if IsPlusMinus(ts1[0]) {
      PairAgain(TimeArith(ts1[0].op), ts1, scope, mods, u, next);
    } else {
      assert Tokens(e) == [ts[0]] + [] == [ts[0]];
      ConsumeHead(ts[0], next);
    }
  }

  lemma {:induction false} MoneyAgain(ts: seq<Token>, scope: Scope, mods: Modules, u: Unicode, next: seq<Token>)
    requires ts != [] && ts[0].Money? && AllValid(ts, u) && |scope.names| + |ts| <= USIZE_LIMIT
    requires ParseMoney(ts, scope, mods).Ok? && Ready(ParseMoney(ts, scope, mods).value.1, next)
    ensures Again(ParseMoney(ts, scope, mods).value.0, next, scope, mods)
    decreases |ts|, 1
  {
    hide Parse;
    var ts1 := Consume(ts).value;
    var e := ParseMoney(ts, scope, mods).value.0;
    if ts1[0] == Key(Str) {
      PairAgain(MoneyStr, ts1, scope, mods, u, next);
      ParsesMoney(Tokens(e) + next, scope, mods);
    } else if ts1[0].Op? {
      PairAgain(MoneyArith(ts1[0].op), ts1, scope, mods, u, next);
      ParsesMoney(Tokens(e) + next, scope, mods);
    } else {
      LeafAgain(e, next, scope, mods);
    }
  }

  lemma ParsesMoney(s: seq<Token>, scope: Scope, mods: Modules)
    requires s != [] && s[0].Money?
    ensures Parse(s, scope, mods) == ParseMoney(s, scope, mods)
  {
  }

  lemma {:induction false} LetAgain(ts: seq<Token>, scope: Scope, mods: Modules, u: Unicode, next: seq<Token>)
    requires ts != [] && ts[0].Let? && AllValid(ts, u) && |scope.names| + |ts| <= USIZE_LIMIT
    requires ParseLet(ts, scope, mods).Ok? && Ready(ParseLet(ts, scope, mods).value.1, next)
    ensures Again(ParseLet(ts, scope, mods).value.0, next, scope, mods)
    decreases |ts|, 0
  {
    hide Parse;
    var ts1 := Consume(ts).value;
    var (name, ts2) := ConsumeName(ts1).value;
    var (val, ts3) := Parse(ts2, scope, mods).value;
    var inner := scope.Add(name);
    var (body, rest) := Parse(ts3, inner, mods).value;
    ParsedPrintable(ts2, scope, mods, u);
    Reparse(ts3, inner, mods, u, next);
    ReadyWith(ts3, inner, mods, u, next);
    var s3 := Tokens(body) + next;
    Reparse(ts2, scope, mods, u, s3);
    TokensHead(val);
    LetParts(name, Tokens(val) + s3, val, s3, body, next, scope, mods);
    OrderFour([Token.Let], [Token.Identifier(name)], Tokens(val), Tokens(body), next);
  }

  /** Which rule an expression is read by. */
  lemma ParseHead(ts: seq<Token>, scope: Scope, mods: Modules)
    requires ts != []
    ensures ts[0].Let? ==> Parse(ts, scope, mods) == ParseLet(ts, scope, mods)
    ensures ts[0].Define? ==> Parse(ts, scope, mods) == ParseDefine(ts, scope, mods)
    ensures ts[0].Shape? ==> Parse(ts, scope, mods) == ParseShape(ts)
    ensures ts[0].New? ==> Parse(ts, scope, mods) == ParseNew(ts, scope, mods)
    ensures ts[0].Export? ==> Parse(ts, scope, mods) == ParseExport(ts, scope, mods)
    ensures ts[0].Get? ==> Parse(ts, scope, mods) == ParseGet(ts, scope, mods)
    ensures ts[0].Set? ==> Parse(ts, scope, mods) == ParseSet(ts, scope, mods)
    ensures ts[0].Metadata? ==> Parse(ts, scope, mods) == ParseMetadata(ts, scope, mods)
    ensures ts[0].Map? ==> Parse(ts, scope, mods) == ParseMap(ts, scope, mods)
    ensures ts[0].Pack? && ts[0].operands != 1 ==> Parse(ts, scope, mods) == ParseUnpack(ts, scope, mods)
    ensures ts[0].Import? ==> Parse(ts, scope, mods) == ParseImport(ts, mods)
  {
  }

  lemma LetParts(name: string, s2: seq<Token>, val: Expr, s3: seq<Token>, body: Expr, next: seq<Token>, scope: Scope, mods: Modules)
    requires s2 != [] && s2[0] != Bad && Parse(s2, scope, mods) == Ok((val, s3))
    requires s3 != [] && Parse(s3, scope.Add(name), mods) == Ok((body, next))
    ensures Parse([Token.Let] + ([Token.Identifier(name)] + s2), scope, mods) == Ok((Expr.Let(name, val, body), next))
  {
    ParseHead([Token.Let] + ([Token.Identifier(name)] + s2), scope, mods);
    hide Parse;
    ConsumeHead(Token.Identifier(name), s2);
    ConsumeHead(Token.Let, [Token.Identifier(name)] + s2);
  }

  lemma {:induction false} DefineAgain(ts: seq<Token>, scope: Scope, mods: Modules, u: Unicode, next: seq<Token>)
    requires ts != [] && ts[0].Define? && AllValid(ts, u) && |scope.names| + |ts| <= USIZE_LIMIT
    requires ParseDefine(ts, scope, mods).Ok? && Ready(ParseDefine(ts, scope, mods).value.1, next)
    ensures Again(ParseDefine(ts, scope, mods).value.0, next, scope, mods)
    decreases |ts|, 0
  {
    hide Parse;
    var ts1 := Consume(ts).value;
    var (name, ts2) := ConsumeName(ts1).value;
    var (params, ts3) := ParseParams(ts2).value;
    var inner := AddParams(Scope(true, scope.names), params);
    var (body, rest) := Parse(ts3, inner, mods).value;
    ParamsValid(ts2, u);
    Reparse(ts3, inner, mods, u, next);
    ReadyWith(ts3, inner, mods, u, next);
    var s3 := Tokens(body) + next;
    ParamsAgain(ts2, s3);
    DefineParts(name, ParamsTokens(params) + s3, params, s3, body, next, scope, mods);
    OrderFour([Token.Define], [Token.Identifier(name)], ParamsTokens(params), Tokens(body), next);
  }

  lemma DefineParts(name: string, s2: seq<Token>, params: seq<Param>, s3: seq<Token>, body: Expr, next: seq<Token>,
                    scope: Scope, mods: Modules)
    requires s2 != [] && s2[0] != Bad && ParseParams(s2) == Ok((params, s3))
    requires s3 != [] && Parse(s3, AddParams(Scope(true, scope.names), params), mods) == Ok((body, next))
    ensures Parse([Token.Define] + ([Token.Identifier(name)] + s2), scope, mods)
         == Ok((Expr.Define(name, params, body, false), next))
  {
    ParseHead([Token.Define] + ([Token.Identifier(name)] + s2), scope, mods);
    hide Parse;
    ConsumeHead(Token.Identifier(name), s2);
    ConsumeHead(Token.Define, [Token.Identifier(name)] + s2);
  }

  lemma ShapeAgain(ts: seq<Token>, scope: Scope, mods: Modules, next: seq<Token>)
    requires ts != [] && ts[0].Shape? && ParseShape(ts).Ok? && Ready(ParseShape(ts).value.1, next)
    ensures Again(ParseShape(ts).value.0, next, scope, mods)
  {
    hide Parse, ParseNames, NamesTokens;
    var (name, ts2) := ConsumeName(Consume(ts).value).value;
    var fields := ParseNames(ts2).value.0;
    NamesAgain(ts2, next);
    ShapeParts(name, NamesTokens(fields) + next, fields, next, scope, mods);
    OrderThree([Token.Shape], [Token.Identifier(name)], NamesTokens(fields), next);
  }

  lemma ShapeParts(name: string, s2: seq<Token>, fields: seq<string>, next: seq<Token>, scope: Scope, mods: Modules)
    requires s2 != [] && s2[0] != Bad && ParseNames(s2) == Ok((fields, next))
    ensures Parse([Token.Shape] + ([Token.Identifier(name)] + s2), scope, mods) == Ok((Expr.Shape(name, fields, false), next))
  {
    ParseHead([Token.Shape] + ([Token.Identifier(name)] + s2), scope, mods);
    hide Parse;
    hide ParseNames;
    ConsumeHead(Token.Identifier(name), s2);
    ConsumeHead(Token.Shape, [Token.Identifier(name)] + s2);
  }

  lemma {:induction false} NewAgain(ts: seq<Token>, scope: Scope, mods: Modules, u: Unicode, next: seq<Token>)
    requires ts != [] && ts[0].New? && AllValid(ts, u) && |scope.names| + |ts| <= USIZE_LIMIT
    requires ParseNew(ts, scope, mods).Ok? && Ready(ParseNew(ts, scope, mods).value.1, next)
    ensures Again(ParseNew(ts, scope, mods).value.0, next, scope, mods)
    decreases |ts|, 0
  {
    hide Parse;
    var (name, ts2) := ConsumeName(Consume(ts).value).value;
    var count := Parse(ts2, scope, mods).value.0;
    Reparse(ts2, scope, mods, u, next);
    TokensHead(count);
    NewParts(name, Tokens(count) + next, count, next, scope, mods);
    OrderThree([Token.New], [Token.Identifier(name)], Tokens(count), next);
  }

  lemma NewParts(name: string, s2: seq<Token>, count: Expr, next: seq<Token>, scope: Scope, mods: Modules)
    requires s2 != [] && s2[0] != Bad && Parse(s2, scope, mods) == Ok((count, next))
    ensures Parse([Token.New] + ([Token.Identifier(name)] + s2), scope, mods) == Ok((Expr.New(name, count), next))
  {
    ParseHead([Token.New] + ([Token.Identifier(name)] + s2), scope, mods);
    hide Parse;
    ConsumeHead(Token.Identifier(name), s2);
    ConsumeHead(Token.New, [Token.Identifier(name)] + s2);
  }

  lemma {:induction false} ExportAgain(ts: seq<Token>, scope: Scope, mods: Modules, u: Unicode, next: seq<Token>)
    requires ts != [] && ts[0].Export? && AllValid(ts, u) && |scope.names| + |ts| <= USIZE_LIMIT
    requires ParseExport(ts, scope, mods).Ok? && Ready(ParseExport(ts, scope, mods).value.1, next)
    ensures Again(ParseExport(ts, scope, mods).value.0, next, scope, mods)
    decreases |ts|, 0
  {
    hide Parse;
    var ts1 := Consume(ts).value;
    var (inner, rest) := Parse(ts1, scope, mods).value;
    Reparse(ts1, scope, mods, u, next);
    if inner.exported {
      assert ParseExport(ts, scope, mods).value.0 == inner;
    } else {
      UnmarkedTokens(inner);
      TokensHead(inner);
      ExportParts(Tokens(inner) + next, inner, next, scope, mods);
      OrderTwo([Export], Tokens(inner), next);
    }
  }

  lemma ExportParts(s1: seq<Token>, inner: Expr, next: seq<Token>, scope: Scope, mods: Modules)
    requires s1 != [] && s1[0] != Bad && Parse(s1, scope, mods) == Ok((inner, next)) && (inner.Define? || inner.Shape?)
    ensures Parse([Export] + s1, scope, mods) == Ok((inner.(exported := true), next))
  {
    ParseHead([Export] + s1, scope, mods);
    hide Parse;
    ConsumeHead(Export, s1);
  }

  lemma {:induction false} GetAgain(ts: seq<Token>, scope: Scope, mods: Modules, u: Unicode, next: seq<Token>)
    requires ts != [] && ts[0].Get? && AllValid(ts, u) && |scope.names| + |ts| <= USIZE_LIMIT
    requires ParseGet(ts, scope, mods).Ok? && Ready(ParseGet(ts, scope, mods).value.1, next)
    ensures Again(ParseGet(ts, scope, mods).value.0, next, scope, mods)
    decreases |ts|, 0
  {
    hide Parse;
    var ts1 := Consume(ts).value;
    var (inst, ts2) := Parse(ts1, scope, mods).value;
    var (field, ts3) := ConsumeName(ts2).value;
    var index := Parse(ts3, scope, mods).value.0;
    ParsedPrintable(ts1, scope, mods, u);
    Reparse(ts3, scope, mods, u, next);
    TokensHead(index);
    var s3 := Tokens(index) + next;
    var id := Token.Identifier(field);
    ConsumeHead(id, s3);
    Reparse(ts1, scope, mods, u, [id] + s3);
    TokensHead(inst);
    GetParts(Tokens(inst) + ([id] + s3), inst, field, s3, index, next, scope, mods);
    OrderFour([Token.Get], Tokens(inst), [id], Tokens(index), next);
  }

  lemma GetParts(s1: seq<Token>, inst: Expr, field: string, s3: seq<Token>, index: Expr, next: seq<Token>, scope: Scope, mods: Modules)
    requires s1 != [] && s1[0] != Bad && s3 != [] && s3[0] != Bad
    requires Parse(s1, scope, mods) == Ok((inst, [Token.Identifier(field)] + s3)) && Parse(s3, scope, mods) == Ok((index, next))
    ensures Parse([Token.Get] + s1, scope, mods) == Ok((Expr.Get(inst, field, index), next))
  {
    ParseHead([Token.Get] + s1, scope, mods);
    hide Parse;
    ConsumeHead(Token.Get, s1);
    ConsumeHead(Token.Identifier(field), s3);
  }

  lemma {:induction false} SetAgain(ts: seq<Token>, scope: Scope, mods: Modules, u: Unicode, next: seq<Token>)
    requires ts != [] && ts[0].Set? && AllValid(ts, u) && |scope.names| + |ts| <= USIZE_LIMIT
    requires ParseSet(ts, scope, mods).Ok? && Ready(ParseSet(ts, scope, mods).value.1, next)
    ensures Again(ParseSet(ts, scope, mods).value.0, next, scope, mods)
    decreases |ts|, 0
  {
    hide Parse, Printable, ValidToken, Consume;
    var ts1 := Consume(ts).value;
    ConsumeValid(ts, u);
    var (inst, ts2) := Parse(ts1, scope, mods).value;
    var (field, ts3) := ConsumeName(ts2).value;
    var (index, ts4) := Parse(ts3, scope, mods).value;
    var val := Parse(ts4, scope, mods).value.0;
    ParsedPrintable(ts1, scope, mods, u);
    NameValid(ts2, u);
    ParsedPrintable(ts3, scope, mods, u);
    Reparse(ts4, scope, mods, u, next);
    ReadyWith(ts4, scope, mods, u, next);
    var s4 := Tokens(val) + next;
    Reparse(ts3, scope, mods, u, s4);
    TokensHead(index);
    var s3 := Tokens(index) + s4;
    var id := Token.Identifier(field);
    ConsumeHead(id, s3);
    Reparse(ts1, scope, mods, u, [id] + s3);
    TokensHead(inst);
    SetParts(Tokens(inst) + ([id] + s3), inst, field, s3, index, s4, val, next, scope, mods);
    SetOrder(Tokens(inst), id, Tokens(index), Tokens(val), next);
  }

  lemma SetParts(s1: seq<Token>, inst: Expr, field: string, s3: seq<Token>, index: Expr, s4: seq<Token>, val: Expr,
                 next: seq<Token>, scope: Scope, mods: Modules)
    requires s1 != [] && s1[0] != Bad && s3 != [] && s3[0] != Bad && s4 != []
    requires Parse(s1, scope, mods) == Ok((inst, [Token.Identifier(field)] + s3)) && Parse(s3, scope, mods) == Ok((index, s4))
    requires Parse(s4, scope, mods) == Ok((val, next))
    ensures Parse([Token.Set] + s1, scope, mods) == Ok((Expr.Set(inst, field, index, val), next))
  {
    ParseHead([Token.Set] + s1, scope, mods);
    hide Parse;
    ConsumeHead(Token.Set, s1);
    ConsumeHead(Token.Identifier(field), s3);
  }

  lemma SetOrder(a: seq<Token>, id: Token, b: seq<Token>, c: seq<Token>, next: seq<Token>)
    ensures [Token.Set] + a + [id] + b + c + next == [Token.Set] + (a + ([id] + (b + (c + next))))
  {
  }

  lemma {:induction false} MetadataAgain(ts: seq<Token>, scope: Scope, mods: Modules, u: Unicode, next: seq<Token>)
    requires ts != [] && ts[0].Metadata? && AllValid(ts, u) && |scope.names| + |ts| <= USIZE_LIMIT
    requires ParseMetadata(ts, scope, mods).Ok? && Ready(ParseMetadata(ts, scope, mods).value.1, next)
    ensures Again(ParseMetadata(ts, scope, mods).value.0, next, scope, mods)
    decreases |ts|, 0
  {
    hide Parse, Printable, ValidToken, Consume;
    var ts1 := Consume(ts).value;
    ConsumeValid(ts, u);
    var (tag, ts2) := Parse(ts1, scope, mods).value;
    var (val, ts3) := Parse(ts2, scope, mods).value;
    var target := Parse(ts3, scope, mods).value.0;
    ParsedPrintable(ts1, scope, mods, u);
    ParsedPrintable(ts2, scope, mods, u);
    Reparse(ts3, scope, mods, u, next);
    ReadyWith(ts3, scope, mods, u, next);
    var s3 := Tokens(target) + next;
    Reparse(ts2, scope, mods, u, s3);
    ReadyWith(ts2, scope, mods, u, s3);
    var s2 := Tokens(val) + s3;
    Reparse(ts1, scope, mods, u, s2);
    TokensHead(tag);
    MetadataParts(Tokens(tag) + s2, tag, s2, val, s3, target, next, scope, mods);
    OrderFour([Token.Metadata], Tokens(tag), Tokens(val), Tokens(target), next);
  }

  lemma MetadataParts(s1: seq<Token>, tag: Expr, s2: seq<Token>, val: Expr, s3: seq<Token>, target: Expr, next: seq<Token>,
                      scope: Scope, mods: Modules)
    requires s1 != [] && s1[0] != Bad && Parse(s1, scope, mods) == Ok((tag, s2))
    requires s2 != [] && Parse(s2, scope, mods) == Ok((val, s3)) && s3 != [] && Parse(s3, scope, mods) == Ok((target, next))
    requires tag == Expr.Text("test") ==> IsDefinition(target)
    ensures Parse([Token.Metadata] + s1, scope, mods) == Ok((Expr.Metadata(tag, val, target), next))
  {
    ParseHead([Token.Metadata] + s1, scope, mods);
    hide Parse;
    ConsumeHead(Token.Metadata, s1);
  }

  lemma {:induction false} MapAgain(ts: seq<Token>, scope: Scope, mods: Modules, u: Unicode, next: seq<Token>)
    requires ts != [] && ts[0].Map? && AllValid(ts, u) && |scope.names| + |ts| <= USIZE_LIMIT
    requires ParseMap(ts, scope, mods).Ok? && Ready(ParseMap(ts, scope, mods).value.1, next)
    ensures Again(ParseMap(ts, scope, mods).value.0, next, scope, mods)
    decreases |ts|, 0
  {
    hide Parse;
    var ts1 := Consume(ts).value;
    var (inst, ts2) := Parse(ts1, scope, mods).value;
    var (field, ts3) := ConsumeText(ts2).value;
    var func := Parse(ts3, scope, mods).value.0;
    ParsedPrintable(ts1, scope, mods, u);
    Reparse(ts3, scope, mods, u, next);
    TokensHead(func);
    var s3 := Tokens(func) + next;
    var text := Token.Text(field);
    ConsumeHead(text, s3);
    Reparse(ts1, scope, mods, u, [text] + s3);
    TokensHead(inst);
    MapParts(Tokens(inst) + ([text] + s3), inst, field, s3, func, next, scope, mods);
    OrderFour([Token.Map], Tokens(inst), [text], Tokens(func), next);
  }

  lemma MapParts(s1: seq<Token>, inst: Expr, field: string, s3: seq<Token>, func: Expr, next: seq<Token>, scope: Scope, mods: Modules)
    requires s1 != [] && s1[0] != Bad && s3 != [] && s3[0] != Bad
    requires Parse(s1, scope, mods) == Ok((inst, [Token.Text(field)] + s3)) && Parse(s3, scope, mods) == Ok((func, next))
    ensures Parse([Token.Map] + s1, scope, mods) == Ok((Expr.Map(inst, field, func), next))
  {
    ParseHead([Token.Map] + s1, scope, mods);
    hide Parse;
    ConsumeHead(Token.Map, s1);
    ConsumeHead(Token.Text(field), s3);
  }

  lemma {:induction false} UnpackAgain(ts: seq<Token>, scope: Scope, mods: Modules, u: Unicode, next: seq<Token>)
    requires ts != [] && ts[0].Pack? && ts[0].operands != 1 && AllValid(ts, u) && |scope.names| + |ts| <= USIZE_LIMIT
    requires ParseUnpack(ts, scope, mods).Ok? && Ready(ParseUnpack(ts, scope, mods).value.1, next)
    ensures Again(ParseUnpack(ts, scope, mods).value.0, next, scope, mods)
    decreases |ts|, 0
  {
    hide Parse;
    var ts1 := Consume(ts).value;
    var (json, ts2) := Parse(ts1, scope, mods).value;
    var text := Token.Text(ConsumeText(ts2).value.0);
    ConsumeHead(text, next);
    Reparse(ts1, scope, mods, u, [text] + next);
    TokensHead(json);
    UnpackParts(Tokens(json) + ([text] + next), json, text.text, next, scope, mods);
    OrderThree([Token.Pack(2)], Tokens(json), [text], next);
  }

  lemma UnpackParts(s1: seq<Token>, json: Expr, shape: string, next: seq<Token>, scope: Scope, mods: Modules)
    requires s1 != [] && s1[0] != Bad && next != [] && next[0] != Bad
    requires Parse(s1, scope, mods) == Ok((json, [Token.Text(shape)] + next))
    ensures Parse([Token.Pack(2)] + s1, scope, mods) == Ok((Unpack(json, shape), next))
  {
    ParseHead([Token.Pack(2)] + s1, scope, mods);
    hide Parse;
    ConsumeHead(Token.Pack(2), s1);
    ConsumeHead(Token.Text(shape), next);
  }

  lemma ImportAgain(ts: seq<Token>, scope: Scope, mods: Modules, next: seq<Token>)
    requires ts != [] && ts[0].Import? && ParseImport(ts, mods).Ok? && Ready(ParseImport(ts, mods).value.1, next)
    ensures Again(ParseImport(ts, mods).value.0, next, scope, mods)
  {
    var Import(mod, symbol, _) := ParseImport(ts, mods).value.0;
    var id := Token.Identifier(symbol);
    ImportParts(mod, symbol, ParseImport(ts, mods).value.0, next, scope, mods);
    OrderThree([Token.Import], [ModuleToken(mod)], [id], next);
  }

  lemma ImportParts(mod: string, symbol: string, e: Expr, next: seq<Token>, scope: Scope, mods: Modules)
    requires next != [] && next[0] != Bad && e.Import? && e.mod == mod && e.symbol == symbol
    requires mod in mods && Lookup(mods[mod].shapes, symbol).None? && Lookup(mods[mod].funcs, symbol) == Some(e.arity)
    ensures Parse([Token.Import] + ([ModuleToken(mod)] + ([Token.Identifier(symbol)] + next)), scope, mods) == Ok((e, next))
  {
    ParseHead([Token.Import] + ([ModuleToken(mod)] + ([Token.Identifier(symbol)] + next)), scope, mods);
    hide Parse;
    ConsumeHead(Token.Identifier(symbol), next);
    ConsumeHead(ModuleToken(mod), [Token.Identifier(symbol)] + next);
    ConsumeHead(Token.Import, [ModuleToken(mod)] + ([Token.Identifier(symbol)] + next));
  }

  // ----- Whole modules -----

  lemma {:induction false} ModulePrintable(ts: seq<Token>, mods: Modules, u: Unicode)
    requires ts != [] && AllValid(ts, u) && |ts| <= USIZE_LIMIT && ParseModule(ts, mods).Ok?
    ensures forall e | e in ParseModule(ts, mods).value :: Printable(e, u)
    decreases |ts|
  {
    hide Parse, Printable;
    if !ts[0].EOF? {
      ParsedPrintable(ts, Scope(false, []), mods, u);
      ModulePrintable(Parse(ts, Scope(false, []), mods).value.1, mods, u);
    }
  }

  lemma {:induction false} ModuleLexes(es: seq<Expr>, u: Unicode)
    requires forall e | e in es :: Printable(e, u)
    ensures Lexes(PrintModule(es), ModuleTokens(es), forall e | e in es :: Plain(e), u)
    decreases |es|
  {
    hide Printable, Plain, Print, Tokens, Reads, Clashes;
    if es == [] {
      ReadsEmpty(u);
    } else {
      PrintLexes(es[0], 0, u);
      ModuleLexes(es[1..], u);
      assert (forall e | e in es :: Plain(e)) == (Plain(es[0]) && forall e | e in es[1..] :: Plain(e)) by {
        assert es == [es[0]] + es[1..];
      }
      if |es| == 1 {
        assert ModuleTokens(es) == Tokens(es[0]) by { assert es[1..] == []; assert Tokens(es[0]) + [] == Tokens(es[0]); }
      } else {
        LexesJoin(Print(es[0], 0), Tokens(es[0]), Plain(es[0]), "\n", PrintModule(es[1..]), ModuleTokens(es[1..]),
                  forall e | e in es[1..] :: Plain(e), u);
      }
    }
  }

  lemma {:induction false} ModuleAgain(ts: seq<Token>, mods: Modules, u: Unicode)
    requires ts != [] && AllValid(ts, u) && |ts| <= USIZE_LIMIT && ParseModule(ts, mods).Ok?
    ensures var again := ModuleTokens(ParseModule(ts, mods).value) + [EOF];
      Ready(ts, again) && ParseModule(again, mods) == ParseModule(ts, mods)
    decreases |ts|
  {
    hide Parse, Tokens;
    var es := ParseModule(ts, mods).value;
    if ts[0].EOF? {
      assert ModuleTokens(es) + [EOF] == [EOF];
    } else {
      var scope := Scope(false, []);
      var (e, rest) := Parse(ts, scope, mods).value;
      ParsedPrintable(ts, scope, mods, u);
      ModuleAgain(rest, mods, u);
      assert es[1..] == ParseModule(rest, mods).value;
      var after := ModuleTokens(es[1..]) + [EOF];
      Reparse(ts, scope, mods, u, after);
      ReadyWith(ts, scope, mods, u, after);
      TokensHead(e);
      OrderTwo(Tokens(e), ModuleTokens(es[1..]), [EOF]);
    }
  }

  lemma {:induction false} ModuleMirrors(ts: seq<Token>, mods: Modules, u: Unicode) returns (rest: seq<Token>)
    requires ts != [] && AllValid(ts, u) && |ts| <= USIZE_LIMIT && ParseModule(ts, mods).Ok?
    ensures Mirrors(ts, ModuleTokens(ParseModule(ts, mods).value), rest)
    decreases |ts|
  {
    hide Parse, Tokens;
    if ts[0].EOF? {
      rest := ts;
    } else {
      var (e, ts1) := Parse(ts, Scope(false, []), mods).value;
      ParsedPrintable(ts, Scope(false, []), mods, u);
      ParseMirrors(ts, Scope(false, []), mods, u);
      rest := ModuleMirrors(ts1, mods, u);
      var es := ParseModule(ts, mods).value;
      assert es[1..] == ParseModule(ts1, mods).value;
      Chain(ts, Tokens(e), ts1, ModuleTokens(es[1..]), rest);
    }
  }

  /** The syntax trees that come back from the print are those it was made from exactly when no integer
      in them is negative and no `map` or `ju` string needs an escape. */
  lemma RoundTrip(source: string, u: Unicode, mods: Modules)
    requires |source| < USIZE_LIMIT && ParseSource(source, u, mods).Ok?
    requires |PrintModule(ParseSource(source, u, mods).value)| < USIZE_LIMIT
    ensures var es := ParseSource(source, u, mods).value;
      ParseSource(PrintModule(es), u, mods) == Ok(es) <==> forall e | e in es :: Plain(e)
  {
    hide ParseModule, PrintModule, ModuleTokens, Printable, Mirrors;
    var ts := Stream(source, u);
    StreamValid(source, u);
    var es := ParseModule(ts, mods).value;
    ModulePrintable(ts, mods, u);
    ModuleLexes(es, u);
    var text := PrintModule(es);
    if forall e | e in es :: Plain(e) {
      assert text + "" == text;
      assert ReadsBefore(text, ModuleTokens(es), "", u);
      assert Stream("", u) == [EOF];
      ModuleAgain(ts, mods, u);
    } else if ParseSource(text, u, mods) == Ok(es) {
      StreamValid(text, u);
      var rest := ModuleMirrors(Stream(text, u), mods, u);
      var p: nat :| ClashesAt(p, text, ModuleTokens(es), u);
      assert text + "" == text;
      assert ClashBefore(p, text, ModuleTokens(es), "", u);
      MirrorsNoClash(Stream(text, u), ModuleTokens(es), rest, p);
    }
  }

  /** A module of one expression that is not plain. */
  lemma Lost(text: string, ts: seq<Token>, e: Expr, u: Unicode, mods: Modules)
    requires |text| < USIZE_LIMIT && Reads(text, ts, u) && ts != [] && !ts[0].EOF?
    requires Parse(ts + [EOF], Scope(false, []), mods) == Ok((e, [EOF]))
    requires !Plain(e) && |Print(e, 0)| < USIZE_LIMIT
    ensures ParseSource(text, u, mods) == Ok([e]) && ParseSource(PrintModule([e]), u, mods) != Ok([e])
  {
    hide Parse, Plain, Print, Printable;
    assert text + "" == text;
    assert ReadsBefore(text, ts, "", u);
    assert Stream("", u) == [EOF];
    assert ParseModule([EOF], mods) == Ok([]);
    assert (ts + [EOF])[0] == ts[0];
    assert ParseModule(ts + [EOF], mods) == Ok([e] + []);
    assert [e] + [] == [e];
    assert !Plain([e][0]);
    RoundTrip(text, u, mods);
  }

  lemma {:induction false} DigitsShort(n: nat)
    ensures |Digits(n)| <= n + 1
  {
    if n >= 10 {
      DigitsShort(n / 10);
    }
  }

  /** A backslash in the shape string of `ju` is lost. */
  lemma EscapeLost(u: Unicode, mods: Modules) returns (source: string)
    ensures ParseSource(source, u, mods).Ok?
    ensures var es := ParseSource(source, u, mods).value; ParseSource(PrintModule(es), u, mods) != Ok(es)
  {
    var json, shape := Expr.Integer(1), "\\";
    var one, text := Token.Integer(1), Token.Text(shape);
    source := "ju" + " " + Digits(1) + " " + Quoted(Escaped(shape));
    EscapeReads(shape, u);
    var ts := [Token.Pack(2)] + [one] + [text];
    EscapeParses(shape, mods);
    DigitsShort(1);
    assert |Escaped(shape)| == 2 by { assert shape[1..] == ""; }
    Lost(source, ts, Unpack(json, shape), u, mods);
  }

  lemma EscapeReads(shape: string, u: Unicode)
    ensures Reads("ju" + " " + Digits(1) + " " + Quoted(Escaped(shape)), [Token.Pack(2)] + [Token.Integer(1)] + [Token.Text(shape)], u)
  {
    hide Reads;
    ReadsLower("ju", u);
    ReadsNumber(1, u);
    ReadsText(shape, u);
    ReadsJoin("ju", [Token.Pack(2)], " ", Digits(1), [Token.Integer(1)], u);
    ReadsJoin("ju" + " " + Digits(1), [Token.Pack(2)] + [Token.Integer(1)], " ", Quoted(Escaped(shape)), [Token.Text(shape)], u);
  }

  lemma EscapeParses(shape: string, mods: Modules)
    ensures Parse([Token.Pack(2)] + [Token.Integer(1)] + [Token.Text(shape)] + [EOF], Scope(false, []), mods)
         == Ok((Unpack(Expr.Integer(1), shape), [EOF]))
  {
    hide Parse;
    var one, text := Token.Integer(1), Token.Text(shape);
    LeafAgain(Expr.Integer(1), [text] + [EOF], Scope(false, []), mods);
    UnpackParts([one] + ([text] + [EOF]), Expr.Integer(1), shape, [EOF], Scope(false, []), mods);
    OrderThree([Token.Pack(2)], [one], [text], [EOF]);
  }

  const TOO_MUCH_MONEY: nat := 922337203685478

  /** A money literal whose scaled value wraps to a negative number is lost. */
  lemma NegativeLost(u: Unicode, mods: Modules) returns (source: string)
    ensures ParseSource(source, u, mods).Ok?
    ensures var es := ParseSource(source, u, mods).value; ParseSource(PrintModule(es), u, mods) != Ok(es)
  {
    hide Reads, Parse, Digits;
    source := "%" + " " + Digits(TOO_MUCH_MONEY);
    var n := Token.Integer(TOO_MUCH_MONEY);
    ReadsPunctuation('%', Money, u);
    ReadsNumber(TOO_MUCH_MONEY, u);
    ReadsJoin("%", [Money], " ", Digits(TOO_MUCH_MONEY), [n], u);
    var e := Expr.Integer(Scaled(TOO_MUCH_MONEY));
    assert e.value == -9223372036854771616;
    ConsumeHead(n, [EOF]);
    ConsumeHead(Money, [n] + [EOF]);
    OrderTwo([Money], [n], [EOF]);
    ParsesMoney([Money] + [n] + [EOF], Scope(false, []), mods);
    DigitsShort(TOO_MUCH_MONEY);
    DigitsShort(9223372036854771616);
    Lost(source, [Money] + [n], e, u, mods);
  }
}
