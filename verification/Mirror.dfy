/** What the parser builds: names and numbers that the lexer can read back, in the order of the tokens
    they came from. */
module Mirroring {
  import opened Ast
  import opened Lexing
  import opened Parsing
  import opened Printing
  import opened PrintLexing
  import opened Wrappers

  predicate AllValid(ts: seq<Token>, u: Unicode) {
    ts == [] || (ValidToken(ts[0], u) && AllValid(ts[1..], u))
  }

  lemma NextValid(s: string, u: Unicode)
    ensures ValidToken(Next(s, u).0, u)
    decreases |s|
  {
    if s != "" {
      var c, rest := s[0], s[1..];
      if IsSpace(c) {
        NextValid(rest, u);
      } else if Punctuation(c).Some? {
      } else if c == '/' && rest != "" && rest[0] == '/' {
        NextValid(AfterLine(rest), u);
      } else if !IsDigit(c) && (IsLetter(c) || c == '_') {
        KeywordValid(s[..WordRun(s, u)], u);
      }
    }
  }

  lemma KeywordValid(w: string, u: Unicode)
    requires w != "" && (IsLetter(w[0]) || w[0] == '_') && Punctuation(w[0]).None?
    requires forall i | 0 <= i < |w| :: IsWordChar(w[i], u)
    ensures ValidToken(Keyword(w), u)
  {
    if Keyword(w).Identifier? {
      assert Keyword(w) == Token.Identifier(w);
    }
  }

  lemma {:induction false} StreamValid(s: string, u: Unicode)
    ensures AllValid(Stream(s, u), u) && |Stream(s, u)| <= |s| + 1
    decreases |s|
  {
    var (t, rest) := Next(s, u);
    NextValid(s, u);
    if t != EOF && t != Bad {
      StreamValid(rest, u);
      assert Stream(s, u)[1..] == Stream(rest, u);
    } else {
      assert Stream(s, u) == [t] && [t][1..] == [];
    }
  }

  // ----- Everything parsed can be printed -----

  /** The result of a parsing function on valid tokens. */
  predicate Built(r: Result<(Expr, seq<Token>)>, u: Unicode) {
    r.Ok? ==> Printable(r.value.0, u) && AllValid(r.value.1, u)
  }

  lemma {:induction false} ParamsValid(ts: seq<Token>, u: Unicode)
    requires ts != [] && AllValid(ts, u) && ParseParams(ts).Ok?
    ensures AllValid(ParseParams(ts).value.1, u)
    ensures forall p | p in ParseParams(ts).value.0 :: ValidName(p.name, u)
    decreases |ts|
  {
    if ts[0].Identifier? {
      var ts1 := Consume(ts).value;
      if ts1[0].Bang? {
        ParamsValid(Consume(ts1).value, u);
      } else {
        ParamsValid(ts1, u);
      }
    }
  }

  lemma {:induction false} NamesValid(ts: seq<Token>, u: Unicode)
    requires ts != [] && AllValid(ts, u) && ParseNames(ts).Ok?
    ensures AllValid(ParseNames(ts).value.1, u)
    ensures forall n | n in ParseNames(ts).value.0 :: ValidName(n, u)
    decreases |ts|
  {
    if ts[0].Identifier? {
      NamesValid(Consume(ts).value, u);
    }
  }

  lemma {:induction false} ParsedPrintable(ts: seq<Token>, scope: Scope, mods: Modules, u: Unicode)
    requires ts != [] && AllValid(ts, u) && |scope.names| + |ts| <= USIZE_LIMIT
    ensures Built(Parse(ts, scope, mods), u)
    decreases |ts|, 1
  {
    hide Printable, ParseLet, ParseDefine, ParseShape, ParseNew, ParseGet, ParseSet, ParseMetadata, ParseExport, ParseMoney, ParseImport,
         ParseUnpack, ParseMap, ParseTime, ParseFormer;
    match ts[0]
    case Let => BuiltLet(ts, scope, mods, u);
    case Define => BuiltDefine(ts, scope, mods, u);
    case Get => BuiltGet(ts, scope, mods, u);
    case Set => BuiltSet(ts, scope, mods, u);
    case Metadata => BuiltMetadata(ts, scope, mods, u);
    case Map => BuiltMap(ts, scope, mods, u);
    case Money => BuiltMoney(ts, scope, mods, u);
    case Import => BuiltImport(ts, mods, u);
    case Key(op) =>
      if op.TimeNow? { BuiltTime(ts, scope, mods, u); } else { BuiltFormer(FPrim(op), ts, scope, mods, u); }
    case Shape => BuiltShape(ts, u);
    case New => BuiltNew(ts, scope, mods, u);
    case Export => BuiltExport(ts, scope, mods, u);
    case Pack(n) => if n == 1 { BuiltFormer(FPack, ts, scope, mods, u); } else { BuiltUnpack(ts, scope, mods, u); }
    case Integer(_) | Text(_) | DeBruijn(_) | Identifier(_) | Bang => BuiltAtom(ts, scope, mods, u);
    case Float(_) | Router | EOF | Bad =>
    case _ => BuiltFormer(FormerOf(ts[0]).value, ts, scope, mods, u);
  }

  lemma BuiltAtom(ts: seq<Token>, scope: Scope, mods: Modules, u: Unicode)
    requires ts != [] && AllValid(ts, u) && |scope.names| + |ts| <= USIZE_LIMIT
    requires ts[0].Integer? || ts[0].Text? || ts[0].DeBruijn? || ts[0].Identifier? || ts[0].Bang?
    ensures Built(Parse(ts, scope, mods), u)
  {
  }

  lemma {:induction false} BuiltExport(ts: seq<Token>, scope: Scope, mods: Modules, u: Unicode)
    requires ts != [] && ts[0].Export? && AllValid(ts, u) && |scope.names| + |ts| <= USIZE_LIMIT
    ensures Built(ParseExport(ts, scope, mods), u)
    decreases |ts|, 0
  {
    hide Parse;
    if ParseExport(ts, scope, mods).Ok? {
      ParsedPrintable(Consume(ts).value, scope, mods, u);
    }
  }

  lemma {:induction false} BuiltUnpack(ts: seq<Token>, scope: Scope, mods: Modules, u: Unicode)
    requires ts != [] && ts[0].Pack? && AllValid(ts, u) && |scope.names| + |ts| <= USIZE_LIMIT
    ensures Built(ParseUnpack(ts, scope, mods), u)
    decreases |ts|, 0
  {
    hide Parse;
    if ParseUnpack(ts, scope, mods).Ok? {
      ParsedPrintable(Consume(ts).value, scope, mods, u);
    }
  }

  lemma BuiltShape(ts: seq<Token>, u: Unicode)
    requires ts != [] && ts[0].Shape? && AllValid(ts, u)
    ensures Built(ParseShape(ts), u)
  {
    if ParseShape(ts).Ok? {
      NamesValid(ConsumeName(Consume(ts).value).value.1, u);
    }
  }

  lemma {:induction false} BuiltNew(ts: seq<Token>, scope: Scope, mods: Modules, u: Unicode)
    requires ts != [] && ts[0].New? && AllValid(ts, u) && |scope.names| + |ts| <= USIZE_LIMIT
    ensures Built(ParseNew(ts, scope, mods), u)
    decreases |ts|, 0
  {
    hide Parse;
    if ParseNew(ts, scope, mods).Ok? {
      ParsedPrintable(ConsumeName(Consume(ts).value).value.1, scope, mods, u);
    }
  }

  lemma {:induction false} BuiltFormer(f: Former, ts: seq<Token>, scope: Scope, mods: Modules, u: Unicode)
    requires ts != [] && !ts[0].EOF? && AllValid(ts, u) && |scope.names| + |ts| <= USIZE_LIMIT
    requires f.FApply? ==> f.arity < USIZE_LIMIT
    ensures Built(ParseFormer(f, ts, scope, mods), u)
    decreases |ts|, 0
  {
    if ParseFormer(f, ts, scope, mods).Ok? {
      var ts1 := Consume(ts).value;
      AllBuilt(Operands(f), ts1, scope, mods, u);
      MadePrintable(f, ParseMany(Operands(f), ts1, scope, mods).value.0, u);
    }
  }

  lemma MadePrintable(f: Former, args: Exprs, u: Unicode)
    requires Length(args) == Operands(f) && AllPrintable(args, u)
    requires f.FApply? ==> f.arity < USIZE_LIMIT
    ensures Printable(Make(f, args), u)
  {
    forall i: nat | i < Length(args) ensures Printable(Arg(args, i), u) { ArgPrintable(args, i, u); }
  }

  lemma {:induction false} ArgPrintable(args: Exprs, i: nat, u: Unicode)
    requires i < Length(args) && AllPrintable(args, u)
    ensures Printable(Arg(args, i), u)
    decreases i
  {
    if i > 0 {
      ArgPrintable(args.tail, i - 1, u);
    }
  }

  lemma {:induction false} AllBuilt(n: nat, ts: seq<Token>, scope: Scope, mods: Modules, u: Unicode)
    requires ts != [] && AllValid(ts, u) && |scope.names| + |ts| <= USIZE_LIMIT
    ensures var r := ParseMany(n, ts, scope, mods); r.Ok? ==> AllPrintable(r.value.0, u) && AllValid(r.value.1, u)
    decreases |ts|, 2
  {
    hide Parse;
    if n > 0 && ParseMany(n, ts, scope, mods).Ok? {
      ParsedPrintable(ts, scope, mods, u);
      AllBuilt(n - 1, Parse(ts, scope, mods).value.1, scope, mods, u);
    }
  }

  lemma {:induction false} BuiltLet(ts: seq<Token>, scope: Scope, mods: Modules, u: Unicode)
    requires ts != [] && ts[0].Let? && AllValid(ts, u) && |scope.names| + |ts| <= USIZE_LIMIT
    ensures Built(ParseLet(ts, scope, mods), u)
    decreases |ts|, 0
  {
    hide Parse;
    if ParseLet(ts, scope, mods).Ok? {
      var ts1 := Consume(ts).value;
      var (name, ts2) := ConsumeName(ts1).value;
      ParsedPrintable(ts2, scope, mods, u);
      ParsedPrintable(Parse(ts2, scope, mods).value.1, scope.Add(name), mods, u);
    }
  }

  lemma {:induction false} BuiltDefine(ts: seq<Token>, scope: Scope, mods: Modules, u: Unicode)
    requires ts != [] && ts[0].Define? && AllValid(ts, u) && |scope.names| + |ts| <= USIZE_LIMIT
    ensures Built(ParseDefine(ts, scope, mods), u)
    decreases |ts|, 0
  {
    hide Parse;
    if ParseDefine(ts, scope, mods).Ok? {
      var ts1 := Consume(ts).value;
      var (name, ts2) := ConsumeName(ts1).value;
      ParamsValid(ts2, u);
      var (params, ts3) := ParseParams(ts2).value;
      ParsedPrintable(ts3, AddParams(Scope(true, scope.names), params), mods, u);
    }
  }

  lemma {:induction false} BuiltGet(ts: seq<Token>, scope: Scope, mods: Modules, u: Unicode)
    requires ts != [] && ts[0].Get? && AllValid(ts, u) && |scope.names| + |ts| <= USIZE_LIMIT
    ensures Built(ParseGet(ts, scope, mods), u)
    decreases |ts|, 0
  {
    hide Parse;
    if ParseGet(ts, scope, mods).Ok? {
      var ts1 := Consume(ts).value;
      ParsedPrintable(ts1, scope, mods, u);
      var (field, ts3) := ConsumeName(Parse(ts1, scope, mods).value.1).value;
      ParsedPrintable(ts3, scope, mods, u);
    }
  }

  lemma {:induction false} BuiltSet(ts: seq<Token>, scope: Scope, mods: Modules, u: Unicode)
    requires ts != [] && ts[0].Set? && AllValid(ts, u) && |scope.names| + |ts| <= USIZE_LIMIT
    ensures Built(ParseSet(ts, scope, mods), u)
    decreases |ts|, 0
  {
    hide Parse;
    if ParseSet(ts, scope, mods).Ok? {
      var ts1 := Consume(ts).value;
      ParsedPrintable(ts1, scope, mods, u);
      var (field, ts3) := ConsumeName(Parse(ts1, scope, mods).value.1).value;
      ParsedPrintable(ts3, scope, mods, u);
      ParsedPrintable(Parse(ts3, scope, mods).value.1, scope, mods, u);
    }
  }

  lemma {:induction false} BuiltMetadata(ts: seq<Token>, scope: Scope, mods: Modules, u: Unicode)
    requires ts != [] && ts[0].Metadata? && AllValid(ts, u) && |scope.names| + |ts| <= USIZE_LIMIT
    ensures Built(ParseMetadata(ts, scope, mods), u)
    decreases |ts|, 0
  {
    hide Parse;
    if ParseMetadata(ts, scope, mods).Ok? {
      var ts1 := Consume(ts).value;
      ParsedPrintable(ts1, scope, mods, u);
      var ts2 := Parse(ts1, scope, mods).value.1;
      ParsedPrintable(ts2, scope, mods, u);
      ParsedPrintable(Parse(ts2, scope, mods).value.1, scope, mods, u);
    }
  }

  lemma {:induction false} BuiltMap(ts: seq<Token>, scope: Scope, mods: Modules, u: Unicode)
    requires ts != [] && ts[0].Map? && AllValid(ts, u) && |scope.names| + |ts| <= USIZE_LIMIT
    ensures Built(ParseMap(ts, scope, mods), u)
    decreases |ts|, 0
  {
    hide Parse;
    if ParseMap(ts, scope, mods).Ok? {
      var ts1 := Consume(ts).value;
      ParsedPrintable(ts1, scope, mods, u);
      var (field, ts3) := ConsumeText(Parse(ts1, scope, mods).value.1).value;
      ParsedPrintable(ts3, scope, mods, u);
    }
  }

  lemma {:induction false} BuiltMoney(ts: seq<Token>, scope: Scope, mods: Modules, u: Unicode)
    requires ts != [] && ts[0].Money? && AllValid(ts, u) && |scope.names| + |ts| <= USIZE_LIMIT
    ensures Built(ParseMoney(ts, scope, mods), u)
    decreases |ts|, 0
  {
    if ParseMoney(ts, scope, mods).Ok? {
      var ts1 := Consume(ts).value;
      match ts1[0]
      case Key(Str) => BuiltFormer(FPrim(MoneyStr), ts1, scope, mods, u);
      case Op(b) => BuiltFormer(FPrim(MoneyArith(b)), ts1, scope, mods, u);
      case _ =>
    }
  }

  lemma {:induction false} BuiltTime(ts: seq<Token>, scope: Scope, mods: Modules, u: Unicode)
    requires ts != [] && ts[0] == Key(TimeNow) && AllValid(ts, u) && |scope.names| + |ts| <= USIZE_LIMIT
    ensures Built(ParseTime(ts, scope, mods), u)
    decreases |ts|, 0
  {
    if ParseTime(ts, scope, mods).Ok? {
      var ts1 := Consume(ts).value;
      if IsPlusMinus(ts1[0]) {
        BuiltFormer(FPrim(TimeArith(ts1[0].op)), ts1, scope, mods, u);
      }
    }
  }

  lemma BuiltImport(ts: seq<Token>, mods: Modules, u: Unicode)
    requires ts != [] && ts[0].Import? && AllValid(ts, u)
    ensures Built(ParseImport(ts, mods), u)
  {
    hide ConsumeName;
    if ParseImport(ts, mods).Ok? {
      var ts1 := Consume(ts).value;
      ConsumeValid(ts, u);
      ConsumeValid(ts1, u);
      NameValid(Consume(ts1).value, u);
      assert ValidToken(ts1[0], u);
      hide Consume, AllValid;
    }
  }

  lemma ConsumeValid(ts: seq<Token>, u: Unicode)
    requires ts != [] && AllValid(ts, u) && Consume(ts).Ok?
    ensures AllValid(Consume(ts).value, u)
  {
  }

  lemma NameValid(ts: seq<Token>, u: Unicode)
    requires ts != [] && AllValid(ts, u)
    ensures var r := ConsumeName(ts); r.Ok? ==> ValidName(r.value.0, u) && AllValid(r.value.1, u)
  {
  }

  // ----- The tokens of what was parsed mirror the tokens it was parsed from -----

  predicate Similar(found: Token, meant: Token) {
    meant.Text? || meant.Integer? ==> found == meant
  }

  /** `rest` is what the tokens `ts` leave after tokens that `printed` mirrors: one for one, but for a
      money literal, which is printed as a number, and for repeated export marks, which are printed once. */
  predicate Mirrors(ts: seq<Token>, printed: seq<Token>, rest: seq<Token>)
    decreases |ts|
  {
    if printed == [] then ts == rest
    else
      || (ts != [] && Similar(ts[0], printed[0]) && Mirrors(ts[1..], printed[1..], rest))
      || (|ts| > 1 && ts[0].Money? && printed[0].Integer? && Mirrors(ts[2..], printed[1..], rest))
      || (|ts| > 1 && |printed| > 1 && ts[0].Export? && ts[1].Export? && printed[0].Export? && !printed[1].Export?
          && Mirrors(ts[1..], printed, rest))
  }

  lemma {:induction false} Chain(ts: seq<Token>, a: seq<Token>, mid: seq<Token>, b: seq<Token>, rest: seq<Token>)
    requires Mirrors(ts, a, mid) && Mirrors(mid, b, rest)
    ensures Mirrors(ts, a + b, rest)
    decreases |ts|
  {
    if a == [] {
      assert a + b == b;
    } else {
      assert (a + b)[1..] == a[1..] + b && (a + b)[0] == a[0];
      if ts != [] && Similar(ts[0], a[0]) && Mirrors(ts[1..], a[1..], mid) {
        Chain(ts[1..], a[1..], mid, b, rest);
      } else if |ts| > 1 && ts[0].Money? && a[0].Integer? && Mirrors(ts[2..], a[1..], mid) {
        Chain(ts[2..], a[1..], mid, b, rest);
      } else {
        Chain(ts[1..], a, mid, b, rest);
      }
    }
  }

  lemma ChainThree(ts: seq<Token>, a: seq<Token>, ts1: seq<Token>, b: seq<Token>, ts2: seq<Token>, c: seq<Token>, rest: seq<Token>)
    requires Mirrors(ts, a, ts1) && Mirrors(ts1, b, ts2) && Mirrors(ts2, c, rest)
    ensures Mirrors(ts, a + b + c, rest)
  {
    Chain(ts, a, ts1, b, ts2);
    Chain(ts, a + b, ts2, c, rest);
  }

  /** A stream that mirrors some tokens cannot clash with them. */
  lemma {:induction false} MirrorsNoClash(ts: seq<Token>, printed: seq<Token>, rest: seq<Token>, p: nat)
    requires Mirrors(ts, printed, rest) && ClashAt(p, ts, printed)
    ensures false
    decreases |ts|
  {
    if p > 0 {
      assert ts[0] == ts[..p][0] == printed[0];
      if Similar(ts[0], printed[0]) && Mirrors(ts[1..], printed[1..], rest) {
        assert ts[1..][..p - 1] == ts[..p][1..] == printed[1..][..p - 1];
        MirrorsNoClash(ts[1..], printed[1..], rest, p - 1);
      }
    }
  }

  /** Stepping over one token. */
  lemma Step(ts: seq<Token>, t: Token)
    requires ts != [] && !ts[0].EOF? && Consume(ts).Ok? && Similar(ts[0], t)
    ensures Mirrors(ts, [t], Consume(ts).value)
  {
    assert [t][1..] == [];
  }

  /** What a parsing function leaves mirrors what it has built. */
  predicate Mirrored(r: Result<(Expr, seq<Token>)>, ts: seq<Token>) {
    r.Ok? ==> Mirrors(ts, Tokens(r.value.0), r.value.1)
  }

  lemma {:induction false} ParamsMirror(ts: seq<Token>)
    requires ts != [] && ParseParams(ts).Ok?
    ensures Mirrors(ts, ParamsTokens(ParseParams(ts).value.0), ParseParams(ts).value.1)
    decreases |ts|
  {
    if ts[0].Identifier? {
      var ts1 := Consume(ts).value;
      var t := Token.Identifier(ts[0].name);
      Step(ts, t);
      var (params, rest) := ParseParams(ts).value;
      assert params[1..] == ParseParams(if ts1[0].Bang? then Consume(ts1).value else ts1).value.0;
      if ts1[0].Bang? {
        var ts2 := Consume(ts1).value;
        Step(ts1, Bang);
        Chain(ts, [t], ts1, [Bang], ts2);
        ParamsMirror(ts2);
        Chain(ts, [t] + [Bang], ts2, ParamsTokens(params[1..]), rest);
      } else {
        ParamsMirror(ts1);
        Chain(ts, [t], ts1, ParamsTokens(params[1..]), rest);
        assert [t] + [] == [t];
      }
    }
  }

  lemma {:induction false} NamesMirror(ts: seq<Token>)
    requires ts != [] && ParseNames(ts).Ok?
    ensures Mirrors(ts, NamesTokens(ParseNames(ts).value.0), ParseNames(ts).value.1)
    decreases |ts|
  {
    if ts[0].Identifier? {
      var ts1 := Consume(ts).value;
      Step(ts, Token.Identifier(ts[0].name));
      NamesMirror(ts1);
      var (names, rest) := ParseNames(ts).value;
      assert names[1..] == ParseNames(ts1).value.0;
      Chain(ts, [Token.Identifier(ts[0].name)], ts1, NamesTokens(names[1..]), rest);
    }
  }

  lemma {:induction false} ParseMirrors(ts: seq<Token>, scope: Scope, mods: Modules, u: Unicode)
    requires ts != [] && AllValid(ts, u) && |scope.names| + |ts| <= USIZE_LIMIT
    ensures Mirrored(Parse(ts, scope, mods), ts)
    decreases |ts|, 3
  {
    hide Mirrors, Tokens, ParseLet, ParseDefine, ParseShape, ParseNew, ParseGet, ParseSet, ParseMetadata, ParseExport, ParseMoney, ParseImport,
         ParseUnpack, ParseMap, ParseTime, ParseFormer;
    match ts[0]
    case Let => MirrorLet(ts, scope, mods, u);
    case Define => MirrorDefine(ts, scope, mods, u);
    case Get => MirrorGet(ts, scope, mods, u);
    case Set => MirrorSet(ts, scope, mods, u);
    case Metadata => MirrorMetadata(ts, scope, mods, u);
    case Map => MirrorMap(ts, scope, mods, u);
    case Money => MirrorMoney(ts, scope, mods, u);
    case Import => MirrorImport(ts, mods);
    case Key(op) =>
      if op.TimeNow? { MirrorTime(ts, scope, mods, u); } else { MirrorFormer(FPrim(op), ts, ts[0], scope, mods, u); }
    case Shape => MirrorShape(ts);
    case New => MirrorNew(ts, scope, mods, u);
    case Export => MirrorExport(ts, scope, mods, u);
    case Pack(n) => if n == 1 { MirrorFormer(FPack, ts, ts[0], scope, mods, u); } else { MirrorUnpack(ts, scope, mods, u); }
    case Integer(_) | Text(_) | DeBruijn(_) | Identifier(_) | Bang => MirrorAtom(ts, scope, mods);
    case Float(_) | Router | EOF | Bad =>
    case _ => MirrorFormer(FormerOf(ts[0]).value, ts, ts[0], scope, mods, u);
  }

  lemma MirrorAtom(ts: seq<Token>, scope: Scope, mods: Modules)
    requires ts != [] && (ts[0].Integer? || ts[0].Text? || ts[0].DeBruijn? || ts[0].Identifier? || ts[0].Bang?)
    ensures Mirrored(Parse(ts, scope, mods), ts)
  {
    var r := Parse(ts, scope, mods);
    if r.Ok? {
      if ts[0].Bang? {
        var ts1 := Consume(ts).value;
        Step(ts, Bang);
        Step(ts1, Token.Identifier(r.value.0.name));
        Chain(ts, [Bang], ts1, [Token.Identifier(r.value.0.name)], r.value.1);
      } else {
        Step(ts, Tokens(r.value.0)[0]);
      }
    }
  }

  function HeadTokens(f: Former): seq<Token> {
    match f
    case FPrim(op) => PrimTokens(op)
    case FMove => [Token.Move]
    case FBorrow => [Token.Borrow]
    case FMutBorrow => [Token.MutBorrow]
    case FIf => [Question]
    case FFilter => [Token.Filter]
    case FTrap => [Token.Trap]
    case FPack => [Token.Pack(1)]
    case FApply(n) => [Token.Apply(n)]
  }

  lemma {:induction false} ArgsTokens(args: Exprs)
    ensures Length(args) == 1 ==> TokensAll(args) == Tokens(Arg(args, 0))
    ensures Length(args) == 2 ==> TokensAll(args) == Tokens(Arg(args, 0)) + Tokens(Arg(args, 1))
    ensures Length(args) == 3 ==> TokensAll(args) == Tokens(Arg(args, 0)) + (Tokens(Arg(args, 1)) + Tokens(Arg(args, 2)))
  {
    if args.Cons? && Length(args) <= 3 {
      assert Length(args) == 1 + Length(args.tail);
      if args.tail.Cons? {
        assert Length(args.tail) == 1 + Length(args.tail.tail);
        assert TokensAll(args.tail) == Tokens(args.tail.head) + TokensAll(args.tail.tail);
        assert Arg(args, 1) == args.tail.head;
        if args.tail.tail.Cons? {
          assert args.tail.tail.tail == Nil;
          assert TokensAll(args.tail.tail) == Tokens(args.tail.tail.head) + [];
          assert Arg(args, 2) == Arg(args.tail, 1) == args.tail.tail.head;
        }
      }
    }
  }

  lemma MakeTokens(f: Former, args: Exprs)
    requires Length(args) == Operands(f)
    ensures Tokens(Make(f, args)) == HeadTokens(f) + TokensAll(args)
  {
    if !f.FPrim? && !f.FApply? {
      ArgsTokens(args);
    }
  }

  lemma {:induction false} FormerMirrors(f: Former, ts: seq<Token>, head: Token, scope: Scope, mods: Modules, u: Unicode)
    returns (args: Exprs)
    requires ts != [] && !ts[0].EOF? && AllValid(ts, u) && |scope.names| + |ts| <= USIZE_LIMIT
    requires Similar(ts[0], head) && ParseFormer(f, ts, scope, mods).Ok?
    ensures Length(args) == Operands(f)
    ensures var (e, rest) := ParseFormer(f, ts, scope, mods).value;
      e == Make(f, args) && Mirrors(ts, [head] + TokensAll(args), rest)
    decreases |ts|, 0
  {
    hide Mirrors, Parse;
    var ts1 := Consume(ts).value;
    var (args', rest) := ParseMany(Operands(f), ts1, scope, mods).value;
    args := args';
    Step(ts, head);
    AllMirror(Operands(f), ts1, scope, mods, u);
    Chain(ts, [head], ts1, TokensAll(args), rest);
  }

  lemma {:induction false} MirrorFormer(f: Former, ts: seq<Token>, head: Token, scope: Scope, mods: Modules, u: Unicode)
    requires ts != [] && !ts[0].EOF? && AllValid(ts, u) && |scope.names| + |ts| <= USIZE_LIMIT
    requires Similar(ts[0], head) && HeadTokens(f) == [head]
    ensures Mirrored(ParseFormer(f, ts, scope, mods), ts)
    decreases |ts|, 1
  {
    hide Mirrors, Parse;
    if ParseFormer(f, ts, scope, mods).Ok? {
      var args := FormerMirrors(f, ts, head, scope, mods, u);
      MakeTokens(f, args);
    }
  }

  lemma {:induction false} AllMirror(n: nat, ts: seq<Token>, scope: Scope, mods: Modules, u: Unicode)
    requires ts != [] && AllValid(ts, u) && |scope.names| + |ts| <= USIZE_LIMIT
    ensures var r := ParseMany(n, ts, scope, mods); r.Ok? ==> Mirrors(ts, TokensAll(r.value.0), r.value.1)
    decreases |ts|, 4
  {
    hide Parse;
    var r := ParseMany(n, ts, scope, mods);
    if n > 0 && r.Ok? {
      ParseMirrors(ts, scope, mods, u);
      ParsedPrintable(ts, scope, mods, u);
      var (head, ts1) := Parse(ts, scope, mods).value;
      AllMirror(n - 1, ts1, scope, mods, u);
      Chain(ts, Tokens(head), ts1, TokensAll(r.value.0.tail), r.value.1);
    }
  }

  lemma {:induction false} MirrorLet(ts: seq<Token>, scope: Scope, mods: Modules, u: Unicode)
    requires ts != [] && ts[0].Let? && AllValid(ts, u) && |scope.names| + |ts| <= USIZE_LIMIT
    ensures Mirrored(ParseLet(ts, scope, mods), ts)
    decreases |ts|, 0
  {
    hide Parse, Mirrors;
    if ParseLet(ts, scope, mods).Ok? {
      var ts1 := Consume(ts).value;
      var (name, ts2) := ConsumeName(ts1).value;
      var (val, ts3) := Parse(ts2, scope, mods).value;
      var (body, rest) := Parse(ts3, scope.Add(name), mods).value;
      ParsedPrintable(ts2, scope, mods, u);
      ParseMirrors(ts2, scope, mods, u);
      ParseMirrors(ts3, scope.Add(name), mods, u);
      Named(ts, Token.Let);
      ChainThree(ts, [Token.Let] + [Token.Identifier(name)], ts2, Tokens(val), ts3, Tokens(body), rest);
    }
  }

  /** A head and a name. */
  lemma Named(ts: seq<Token>, head: Token)
    requires ts != [] && !ts[0].EOF? && Similar(ts[0], head) && Consume(ts).Ok? && ConsumeName(Consume(ts).value).Ok?
    ensures var (name, rest) := ConsumeName(Consume(ts).value).value; Mirrors(ts, [head] + [Token.Identifier(name)], rest)
  {
    var ts1 := Consume(ts).value;
    var (name, ts2) := ConsumeName(ts1).value;
    Step(ts, head);
    Step(ts1, Token.Identifier(name));
    Chain(ts, [head], ts1, [Token.Identifier(name)], ts2);
  }

  /** A head, a name and parameters. */
  lemma HeaderMirrors(ts: seq<Token>, head: Token, u: Unicode)
    requires ts != [] && !ts[0].EOF? && Similar(ts[0], head) && AllValid(ts, u)
    requires Consume(ts).Ok? && ConsumeName(Consume(ts).value).Ok?
    requires ParseParams(ConsumeName(Consume(ts).value).value.1).Ok?
    ensures var (name, ts2) := ConsumeName(Consume(ts).value).value;
      var (params, rest) := ParseParams(ts2).value;
      Mirrors(ts, [head] + [Token.Identifier(name)] + ParamsTokens(params), rest) && AllValid(rest, u)
  {
    var (name, ts2) := ConsumeName(Consume(ts).value).value;
    Named(ts, head);
    ParamsValid(ts2, u);
    ParamsMirror(ts2);
    Chain(ts, [head] + [Token.Identifier(name)], ts2, ParamsTokens(ParseParams(ts2).value.0), ParseParams(ts2).value.1);
  }

  lemma {:induction false} MirrorDefine(ts: seq<Token>, scope: Scope, mods: Modules, u: Unicode)
    requires ts != [] && ts[0].Define? && AllValid(ts, u) && |scope.names| + |ts| <= USIZE_LIMIT
    ensures Mirrored(ParseDefine(ts, scope, mods), ts)
    decreases |ts|, 0
  {
    hide Parse, Mirrors;
    if ParseDefine(ts, scope, mods).Ok? {
      HeaderMirrors(ts, Token.Define, u);
      var (name, ts2) := ConsumeName(Consume(ts).value).value;
      var (params, ts3) := ParseParams(ts2).value;
      var inner := AddParams(Scope(true, scope.names), params);
      var (body, rest) := Parse(ts3, inner, mods).value;
      ParseMirrors(ts3, inner, mods, u);
      Chain(ts, [Token.Define] + [Token.Identifier(name)] + ParamsTokens(params), ts3, Tokens(body), rest);
    }
  }

  lemma MirrorShape(ts: seq<Token>)
    requires ts != [] && ts[0].Shape?
    ensures Mirrored(ParseShape(ts), ts)
  {
    hide ParseNames, NamesTokens, Mirrors;
    var r := ParseShape(ts);
    if r.Ok? {
      var (name, ts2) := ConsumeName(Consume(ts).value).value;
      Named(ts, Token.Shape);
      NamesMirror(ts2);
      Chain(ts, [Token.Shape] + [Token.Identifier(name)], ts2, NamesTokens(r.value.0.fields), r.value.1);
    }
  }

  lemma {:induction false} MirrorNew(ts: seq<Token>, scope: Scope, mods: Modules, u: Unicode)
    requires ts != [] && ts[0].New? && AllValid(ts, u) && |scope.names| + |ts| <= USIZE_LIMIT
    ensures Mirrored(ParseNew(ts, scope, mods), ts)
    decreases |ts|, 0
  {
    hide Parse, Mirrors;
    var r := ParseNew(ts, scope, mods);
    if r.Ok? {
      var (name, ts2) := ConsumeName(Consume(ts).value).value;
      Named(ts, Token.New);
      ParseMirrors(ts2, scope, mods, u);
      Chain(ts, [Token.New] + [Token.Identifier(name)], ts2, Tokens(r.value.0.count), r.value.1);
    }
  }

  lemma {:induction false} MirrorExport(ts: seq<Token>, scope: Scope, mods: Modules, u: Unicode)
    requires ts != [] && ts[0].Export? && AllValid(ts, u) && |scope.names| + |ts| <= USIZE_LIMIT
    ensures Mirrored(ParseExport(ts, scope, mods), ts)
    decreases |ts|, 0
  {
    hide Parse;
    var r := ParseExport(ts, scope, mods);
    if r.Ok? {
      var ts1 := Consume(ts).value;
      var (inner, rest) := Parse(ts1, scope, mods).value;
      ParseMirrors(ts1, scope, mods, u);
      Step(ts, Export);
      if inner.exported {
        assert r.value.0 == inner;
        ExportedFrom(ts1, scope, mods);
        assert Tokens(inner)[0].Export? && !Tokens(inner)[1].Export?;
      } else {
        Chain(ts, [Export], ts1, Tokens(inner), rest);
        UnmarkedTokens(inner);
      }
    }
  }

  lemma UnmarkedTokens(e: Expr)
    requires (e.Define? || e.Shape?) && !e.exported
    ensures Tokens(e.(exported := true)) == [Export] + Tokens(e)
  {
  }

  lemma ExportedFrom(ts: seq<Token>, scope: Scope, mods: Modules)
    requires ts != [] && Parse(ts, scope, mods).Ok?
    requires var e := Parse(ts, scope, mods).value.0; (e.Define? || e.Shape?) && e.exported
    ensures ts[0].Export?
  {
  }

  /** A head, an expression, a name and another expression. */
  lemma FieldMirrors(ts: seq<Token>, head: Token, ts1: seq<Token>, inst: Expr, ts2: seq<Token>, field: string,
                     ts3: seq<Token>, index: Expr, rest: seq<Token>)
    requires ts != [] && !ts[0].EOF? && Similar(ts[0], head)
    requires ts1 != [] && Consume(ts) == Ok(ts1) && Mirrors(ts1, Tokens(inst), ts2)
    requires ts2 != [] && ConsumeName(ts2) == Ok((field, ts3)) && Mirrors(ts3, Tokens(index), rest)
    ensures Mirrors(ts, [head] + Tokens(inst) + [Token.Identifier(field)] + Tokens(index), rest)
  {
    Step(ts, head);
    Step(ts2, Token.Identifier(field));
    ChainThree(ts, [head], ts1, Tokens(inst), ts2, [Token.Identifier(field)], ts3);
    Chain(ts, [head] + Tokens(inst) + [Token.Identifier(field)], ts3, Tokens(index), rest);
  }

  lemma {:induction false} MirrorGet(ts: seq<Token>, scope: Scope, mods: Modules, u: Unicode)
    requires ts != [] && ts[0].Get? && AllValid(ts, u) && |scope.names| + |ts| <= USIZE_LIMIT
    ensures Mirrored(ParseGet(ts, scope, mods), ts)
    decreases |ts|, 0
  {
    hide Parse, Mirrors;
    if ParseGet(ts, scope, mods).Ok? {
      var ts1 := Consume(ts).value;
      var (inst, ts2) := Parse(ts1, scope, mods).value;
      var (field, ts3) := ConsumeName(ts2).value;
      var (index, rest) := Parse(ts3, scope, mods).value;
      ParsedPrintable(ts1, scope, mods, u);
      ParseMirrors(ts1, scope, mods, u);
      ParseMirrors(ts3, scope, mods, u);
      FieldMirrors(ts, Token.Get, ts1, inst, ts2, field, ts3, index, rest);
    }
  }

  lemma {:induction false} MirrorSet(ts: seq<Token>, scope: Scope, mods: Modules, u: Unicode)
    requires ts != [] && ts[0].Set? && AllValid(ts, u) && |scope.names| + |ts| <= USIZE_LIMIT
    ensures Mirrored(ParseSet(ts, scope, mods), ts)
    decreases |ts|, 0
  {
    hide Parse, Mirrors, Printable, ValidToken, Consume;
    if ParseSet(ts, scope, mods).Ok? {
      var ts1 := Consume(ts).value;
      ConsumeValid(ts, u);
      var (inst, ts2) := Parse(ts1, scope, mods).value;
      var (field, ts3) := ConsumeName(ts2).value;
      var (index, ts4) := Parse(ts3, scope, mods).value;
      var (val, rest) := Parse(ts4, scope, mods).value;
      ParsedPrintable(ts1, scope, mods, u);
      ParseMirrors(ts1, scope, mods, u);
      NameValid(ts2, u);
      ParsedPrintable(ts3, scope, mods, u);
      ParseMirrors(ts3, scope, mods, u);
      ParseMirrors(ts4, scope, mods, u);
      FieldMirrors(ts, Token.Set, ts1, inst, ts2, field, ts3, index, ts4);
      Chain(ts, [Token.Set] + Tokens(inst) + [Token.Identifier(field)] + Tokens(index), ts4, Tokens(val), rest);
    }
  }

  lemma {:induction false} MirrorMetadata(ts: seq<Token>, scope: Scope, mods: Modules, u: Unicode)
    requires ts != [] && ts[0].Metadata? && AllValid(ts, u) && |scope.names| + |ts| <= USIZE_LIMIT
    ensures Mirrored(ParseMetadata(ts, scope, mods), ts)
    decreases |ts|, 0
  {
    hide Parse, Mirrors, Printable, ValidToken, Consume;
    if ParseMetadata(ts, scope, mods).Ok? {
      var ts1 := Consume(ts).value;
      ConsumeValid(ts, u);
      var (tag, ts2) := Parse(ts1, scope, mods).value;
      var (val, ts3) := Parse(ts2, scope, mods).value;
      var (target, rest) := Parse(ts3, scope, mods).value;
      ParsedPrintable(ts1, scope, mods, u);
      ParseMirrors(ts1, scope, mods, u);
      ParsedPrintable(ts2, scope, mods, u);
      ParseMirrors(ts2, scope, mods, u);
      ParseMirrors(ts3, scope, mods, u);
      Step(ts, Token.Metadata);
      ChainThree(ts, [Token.Metadata], ts1, Tokens(tag), ts2, Tokens(val), ts3);
      Chain(ts, [Token.Metadata] + Tokens(tag) + Tokens(val), ts3, Tokens(target), rest);
    }
  }

  lemma {:induction false} MirrorMap(ts: seq<Token>, scope: Scope, mods: Modules, u: Unicode)
    requires ts != [] && ts[0].Map? && AllValid(ts, u) && |scope.names| + |ts| <= USIZE_LIMIT
    ensures Mirrored(ParseMap(ts, scope, mods), ts)
    decreases |ts|, 0
  {
    hide Parse, Mirrors, Printable, ValidToken, Consume;
    if ParseMap(ts, scope, mods).Ok? {
      var ts1 := Consume(ts).value;
      ConsumeValid(ts, u);
      var (inst, ts2) := Parse(ts1, scope, mods).value;
      var (field, ts3) := ConsumeText(ts2).value;
      var (func, rest) := Parse(ts3, scope, mods).value;
      ParsedPrintable(ts1, scope, mods, u);
      ParseMirrors(ts1, scope, mods, u);
      ConsumeValid(ts2, u);
      ParseMirrors(ts3, scope, mods, u);
      Step(ts, Token.Map);
      Step(ts2, Token.Text(field));
      ChainThree(ts, [Token.Map], ts1, Tokens(inst), ts2, [Token.Text(field)], ts3);
      Chain(ts, [Token.Map] + Tokens(inst) + [Token.Text(field)], ts3, Tokens(func), rest);
    }
  }

  lemma {:induction false} MirrorUnpack(ts: seq<Token>, scope: Scope, mods: Modules, u: Unicode)
    requires ts != [] && ts[0].Pack? && ts[0].operands != 1 && AllValid(ts, u) && |scope.names| + |ts| <= USIZE_LIMIT
    ensures Mirrored(ParseUnpack(ts, scope, mods), ts)
    decreases |ts|, 0
  {
    hide Parse, Mirrors;
    var r := ParseUnpack(ts, scope, mods);
    if r.Ok? {
      var ts1 := Consume(ts).value;
      var (json, ts2) := Parse(ts1, scope, mods).value;
      ParseMirrors(ts1, scope, mods, u);
      Step(ts, Token.Pack(2));
      Step(ts2, ts2[0]);
      Chain(ts, [Token.Pack(2)], ts1, Tokens(json), ts2);
      Chain(ts, [Token.Pack(2)] + Tokens(json), ts2, [ts2[0]], r.value.1);
    }
  }

  lemma {:induction false} MirrorMoney(ts: seq<Token>, scope: Scope, mods: Modules, u: Unicode)
    requires ts != [] && ts[0].Money? && AllValid(ts, u) && |scope.names| + |ts| <= USIZE_LIMIT
    ensures Mirrored(ParseMoney(ts, scope, mods), ts)
    decreases |ts|, 1
  {
    var r := ParseMoney(ts, scope, mods);
    if r.Ok? {
      var ts1 := Consume(ts).value;
      if ts1[0] == Key(Str) {
        MirrorPair(MoneyStr, Money, ts, scope, mods, u);
      } else if ts1[0].Op? {
        MirrorPair(MoneyArith(ts1[0].op), Money, ts, scope, mods, u);
      } else {
        assert r.value.1 == ts1[1..] == ts[2..];
        assert Tokens(r.value.0)[1..] == [];
      }
    }
  }

  /** A head of two tokens. */
  lemma {:induction false} MirrorPair(op: PrimOp, first: Token, ts: seq<Token>, scope: Scope, mods: Modules, u: Unicode)
    requires ts != [] && ts[0] == first && !first.EOF? && AllValid(ts, u) && |scope.names| + |ts| <= USIZE_LIMIT
    requires Consume(ts).Ok? && !Consume(ts).value[0].EOF? && PrimTokens(op) == [first] + [Consume(ts).value[0]]
    ensures Mirrored(ParseFormer(FPrim(op), Consume(ts).value, scope, mods), ts)
    decreases |ts|, 0
  {
    hide Parse, ParseFormer, Mirrors;
    var ts1 := Consume(ts).value;
    var r := ParseFormer(FPrim(op), ts1, scope, mods);
    if r.Ok? {
      Step(ts, first);
      var args := FormerMirrors(FPrim(op), ts1, ts1[0], scope, mods, u);
      Chain(ts, [first], ts1, [ts1[0]] + TokensAll(args), r.value.1);
      assert [first] + ([ts1[0]] + TokensAll(args)) == [first] + [ts1[0]] + TokensAll(args);
    }
  }

  lemma {:induction false} MirrorTime(ts: seq<Token>, scope: Scope, mods: Modules, u: Unicode)
    requires ts != [] && ts[0] == Key(TimeNow) && AllValid(ts, u) && |scope.names| + |ts| <= USIZE_LIMIT
    ensures Mirrored(ParseTime(ts, scope, mods), ts)
    decreases |ts|, 1
  {
    var r := ParseTime(ts, scope, mods);
    if r.Ok? {
      var ts1 := Consume(ts).value;
      if IsPlusMinus(ts1[0]) {
        MirrorPair(TimeArith(ts1[0].op), ts[0], ts, scope, mods, u);
      } else {
        Step(ts, ts[0]);
        assert Tokens(r.value.0) == [Key(TimeNow)] + [] == [Key(TimeNow)];
      }
    }
  }

  lemma MirrorImport(ts: seq<Token>, mods: Modules)
    requires ts != [] && ts[0].Import?
    ensures Mirrored(ParseImport(ts, mods), ts)
  {
    var r := ParseImport(ts, mods);
    if r.Ok? {
      var ts1 := Consume(ts).value;
      var ts2 := Consume(ts1).value;
      var Import(mod, symbol, _) := r.value.0;
      Step(ts, Token.Import);
      Step(ts1, ModuleToken(mod));
      Step(ts2, Token.Identifier(symbol));
      Chain(ts, [Token.Import], ts1, [ModuleToken(mod)], ts2);
      Chain(ts, [Token.Import] + [ModuleToken(mod)], ts2, [Token.Identifier(symbol)], r.value.1);
    }
  }
}
