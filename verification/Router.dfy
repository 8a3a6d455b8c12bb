/** The expansion of the `rt` construct into an accept loop with a dispatch tree
    (`parse_router` in `src/compiler/parser/mod.rs`). */
module Router {
  import opened Ast
  import opened Ownership
  import opened Generator
  import opened Soundness
  import opened Wrappers

  /** A route as parsed; its method and path must turn out to be string literals. */
  datatype Route = Route(mth: Expr, path: Expr, handler: Expr)

  // ----- Path templates -----

  /** `s.split('/')`. */
  function Segments(s: string): (r: seq<string>)
    ensures r != []
  {
    if s == "" then [""]
    else if s[0] == '/' then [""] + Segments(s[1..])
    else var rest := Segments(s[1..]); [[s[0]] + rest[0]] + rest[1..]
  }

  predicate IsParam(segment: string) {
    |segment| > 1 && segment[0] == ':'
  }

  function PatternSegments(segments: seq<string>): (r: seq<string>)
    ensures |r| == |segments|
  {
    seq(|segments|, i requires 0 <= i < |segments| => if IsParam(segments[i]) then "[^/]+" else segments[i])
  }

  function Join(segments: seq<string>): string {
    if segments == [] then ""
    else if |segments| == 1 then segments[0]
    else segments[0] + "/" + Join(segments[1..])
  }

  function Pattern(path: string): string {
    "^" + Join(PatternSegments(Segments(path))) + "$"
  }

  /** The indices of the parameters, counting from `k` the segments that are not empty. */
  function ParamIndices(segments: seq<string>, k: nat): seq<nat> {
    if segments == [] then []
    else if segments[0] == "" then ParamIndices(segments[1..], k)
    else (if IsParam(segments[0]) then [k] else []) + ParamIndices(segments[1..], k + 1)
  }

  /** The tokens of `strtok_r` with the delimiter `/`, which the runtime's split counts. */
  function NonEmpty(segments: seq<string>): seq<string> {
    if segments == [] then []
    else (if segments[0] == "" then [] else [segments[0]]) + NonEmpty(segments[1..])
  }

  /** The segments of a request path where the template has parameters. */
  function ParamValues(template: seq<string>, request: seq<string>): seq<string>
    requires |template| == |request|
  {
    if template == [] then []
    else (if IsParam(template[0]) then [request[0]] else []) + ParamValues(template[1..], request[1..])
  }

  /** A request path has the shape of a template: the same number of segments, empty in the same
      places. */
  predicate SameShape(template: seq<string>, request: seq<string>) {
    |template| == |request| && forall i | 0 <= i < |template| :: template[i] == "" <==> request[i] == ""
  }

  /** The tokens that `indices` pick out. */
  predicate Picks(indices: seq<nat>, tokens: seq<string>, values: seq<string>) {
    |indices| == |values| && forall j | 0 <= j < |indices| :: indices[j] < |tokens| && tokens[indices[j]] == values[j]
  }

  lemma PicksMore(k: nat, indices: seq<nat>, tokens: seq<string>, values: seq<string>)
    requires k < |tokens| && Picks(indices, tokens, values)
    ensures Picks([k] + indices, tokens, [tokens[k]] + values)
  {
  }

  /** Empty segments do not count, in the template or in the request: the indices pick the tokens that have
      the places of the parameters among the segments that are not empty, behind `k` others. */
  lemma {:induction false} ParamsByRank(template: seq<string>, tokens: seq<string>, k: nat)
    requires k + |NonEmpty(template)| <= |tokens|
    ensures Picks(ParamIndices(template, k), tokens, ParamValues(NonEmpty(template), tokens[k..k + |NonEmpty(template)|]))
    decreases |template|
  {
    hide Picks, ParamValues;
    if template == [] {
      assert Picks([], tokens, []) && ParamValues([], []) == [] by { PicksNone(tokens); }
    } else if template[0] == "" {
      ParamsByRank(template[1..], tokens, k);
      assert NonEmpty(template) == NonEmpty(template[1..]);
    } else {
      var rest := NonEmpty(template[1..]);
      var after := tokens[k + 1..k + 1 + |rest|];
      ParamsByRank(template[1..], tokens, k + 1);
      assert NonEmpty(template) == [template[0]] + rest;
      assert tokens[k..k + 1 + |rest|] == [tokens[k]] + after;
      ValuesCons(template[0], rest, tokens[k], after);
      if IsParam(template[0]) {
        PicksMore(k, ParamIndices(template[1..], k + 1), tokens, ParamValues(rest, after));
      } else {
        assert [] + ParamIndices(template[1..], k + 1) == ParamIndices(template[1..], k + 1);
        assert [] + ParamValues(rest, after) == ParamValues(rest, after);
      }
    }
  }

  lemma PicksNone(tokens: seq<string>)
    ensures Picks([], tokens, []) && ParamValues([], []) == []
  {
  }

  lemma ValuesCons(t: string, template: seq<string>, r: string, request: seq<string>)
    requires |template| == |request|
    ensures ParamValues([t] + template, [r] + request) == (if IsParam(t) then [r] else []) + ParamValues(template, request)
  {
    assert ([t] + template)[1..] == template && ([r] + request)[1..] == request;
  }

  /** The values that the computed indices pick out of any request with enough segments that are not empty,
      doubled slashes or not. */
  lemma ParamsExtracted(template: seq<string>, request: seq<string>)
    requires |NonEmpty(template)| <= |NonEmpty(request)|
    ensures Picks(ParamIndices(template, 0), NonEmpty(request),
                  ParamValues(NonEmpty(template), NonEmpty(request)[..|NonEmpty(template)|]))
  {
    ParamsByRank(template, NonEmpty(request), 0);
    assert NonEmpty(request)[0..|NonEmpty(template)|] == NonEmpty(request)[..|NonEmpty(template)|];
  }

  lemma {:induction false} ShapeValues(template: seq<string>, request: seq<string>)
    requires SameShape(template, request)
    ensures |NonEmpty(template)| == |NonEmpty(request)|
    ensures ParamValues(NonEmpty(template), NonEmpty(request)) == ParamValues(template, request)
    decreases |template|
  {
    if template != [] {
      assert template[0] == "" <==> request[0] == "";
      assert SameShape(template[1..], request[1..]) by {
        assert forall i | 0 <= i < |template| - 1 :: template[1..][i] == template[i + 1] && request[1..][i] == request[i + 1];
      }
      ShapeValues(template[1..], request[1..]);
      if template[0] == "" {
        assert NonEmpty(template) == NonEmpty(template[1..]) && NonEmpty(request) == NonEmpty(request[1..]);
        assert ParamValues(template, request) == ParamValues(template[1..], request[1..]);
      } else {
        assert NonEmpty(template) == [template[0]] + NonEmpty(template[1..]) && NonEmpty(request) == [request[0]] + NonEmpty(request[1..]);
        ValuesCons(template[0], NonEmpty(template[1..]), request[0], NonEmpty(request[1..]));
      }
    }
  }

  /** The segments of a path that a template's anchored pattern stands for, its literal segments being
      plain text: something without slashes for each parameter, and the template elsewhere. */
  predicate Fills(template: seq<string>, request: seq<string>) {
    && |template| == |request|
    && forall i | 0 <= i < |template| :: '/' !in request[i] && if IsParam(template[i]) then request[i] != "" else request[i] == template[i]
  }

  lemma {:induction false} SegmentsHead(a: string, rest: string)
    requires '/' !in a
    ensures Segments(a) == [a] && Segments(a + "/" + rest) == [a] + Segments(rest)
    decreases |a|
  {
    if a == "" {
      assert "" + "/" + rest == ['/'] + rest;
    } else {
      assert (a + "/" + rest)[1..] == a[1..] + "/" + rest;
      SegmentsHead(a[1..], rest);
      assert [a[0]] + a[1..] == a;
    }
  }

  lemma {:induction false} SegmentsJoin(segments: seq<string>)
    requires segments != [] && forall i | 0 <= i < |segments| :: '/' !in segments[i]
    ensures Segments(Join(segments)) == segments
    decreases |segments|
  {
    if |segments| == 1 {
      SegmentsHead(segments[0], "");
    } else {
      SegmentsJoin(segments[1..]);
      SegmentsHead(segments[0], Join(segments[1..]));
    }
  }

  /** A handler gets what stands in the request for the parameters of its path. */
  lemma MatchedParams(template: seq<string>, request: seq<string>)
    requires template != [] && Fills(template, request)
    ensures Picks(ParamIndices(template, 0), NonEmpty(Segments(Join(request))), ParamValues(template, request))
  {
    SegmentsJoin(request);
    ShapeValues(template, request);
    ParamsExtracted(template, request);
    assert NonEmpty(request)[..|NonEmpty(template)|] == NonEmpty(request);
  }

  // ----- The generated code -----

  function List(es: seq<Expr>): Exprs {
    if es == [] then Nil else Cons(es[0], List(es[1..]))
  }

  function Prim1(op: PrimOp, e: Expr): Expr { Prim(op, Cons(e, Nil)) }
  function Prim2(op: PrimOp, l: Expr, r: Expr): Expr { Prim(op, Cons(l, Cons(r, Nil))) }
  function Prim3(op: PrimOp, a: Expr, b: Expr, c: Expr): Expr { Prim(op, Cons(a, Cons(b, Cons(c, Nil)))) }

  const METHOD: nat := 0
  const PATH: nat := 1
  const RAW_PATH: nat := 2
  const REQ: nat := 3
  const SERVER: nat := 4

  /** `call req ..` and then once more around the loop. */
  function Serve(handler: Expr, params: Exprs, loopName: string): Expr {
    Prim2(PrimOp.Seq,
          Apply(handler, Cons(Expr.Move(DeBruijn(REQ)), params)),
          Apply(Identifier(loopName), Cons(Expr.Move(DeBruijn(SERVER)), Nil)))
  }

  /** A segment of the request path. */
  function Extract(idx: nat): Expr {
    Prim3(Split, Borrow(DeBruijn(PATH)), Text("/"), Integer(idx))
  }

  function PathParams(indices: seq<nat>): Exprs {
    if indices == [] then Nil else Cons(Extract(indices[0]), PathParams(indices[1..]))
  }

  function Condition(mth: string, path: string): Expr {
    Prim2(Binary(BitAnd),
          Prim2(Reg, Borrow(DeBruijn(METHOD)), Text("^" + mth + "$")),
          Prim2(Reg, Borrow(DeBruijn(PATH)), Text(Pattern(path))))
  }

  predicate Literal(routes: seq<Route>) {
    forall i | 0 <= i < |routes| :: routes[i].mth.Text? && routes[i].path.Text?
  }

  function Dispatch(routes: seq<Route>, fallback: Expr, loopName: string): Expr
    requires Literal(routes)
  {
    if routes == [] then Serve(fallback, Nil, loopName)
    else
      var path := routes[0].path.text;
      If(Condition(routes[0].mth.text, path),
         Serve(routes[0].handler, PathParams(ParamIndices(Segments(path), 0)), loopName),
         Dispatch(routes[1..], fallback, loopName))
  }

  function Log(title: string, idx: nat): Expr {
    Prim2(PrimOp.Seq,
          Prim2(Write, Integer(1), Prim2(Cat, Text(title), Borrow(DeBruijn(idx)))),
          Prim2(Write, Integer(1), Text("\n")))
  }

  function Tree(routes: seq<Route>, fallback: Expr, loopName: string): Expr
    requires Literal(routes)
  {
    var logs := Prim2(PrimOp.Seq, Log("raw_path: ", RAW_PATH), Prim2(PrimOp.Seq, Log("path: ", PATH), Log("method: ", METHOD)));
    Prim2(PrimOp.Seq, logs, Dispatch(routes, fallback, loopName))
  }

  function MethodLet(body: Expr): Expr { Let("method", Prim2(HttpServer, Integer(1), Borrow(DeBruijn(2))), body) }
  function PathLet(body: Expr): Expr { Let("path", Prim3(Split, Borrow(DeBruijn(0)), Text("?"), Integer(0)), body) }
  function RawPathLet(body: Expr): Expr { Let("raw_path", Prim2(HttpServer, Integer(2), Borrow(DeBruijn(0))), body) }
  function ReqLet(body: Expr): Expr { Let("req", Prim1(PrimOp.Read, Borrow(DeBruijn(0))), body) }

  function LoopBody(routes: seq<Route>, fallback: Expr, loopName: string): Expr
    requires Literal(routes)
  {
    ReqLet(RawPathLet(PathLet(MethodLet(Tree(routes, fallback, loopName)))))
  }

  function Entry(port: Expr, loopName: string): Expr {
    Let("s", Prim2(HttpServer, Integer(0), port), Apply(Identifier(loopName), Cons(Expr.Move(DeBruijn(0)), Nil)))
  }

  // ----- Ownership of the generated code -----

  predicate Handlers(routes: seq<Route>, fallback: Expr, loopName: string, env: Env) {
    && loopName in env.functions
    && fallback.Identifier? && fallback.name in env.functions
    && forall i | 0 <= i < |routes| :: routes[i].handler.Identifier? && routes[i].handler.name in env.functions
  }

  /** The stack of the dispatch tree, bottom first: server, req, raw_path, path, method. */
  const FIVE: States := [Available, Available, Available, Available, Available]
  const SERVED: States := [Moved, Moved, Available, Available, Available]

  lemma Prim2Verifies(op: PrimOp, l: Expr, r: Expr, env: Env, st: States, st1: States, sh: Shapes)
    requires |st| == |st1| == |sh| && Verify(l, env, st, sh) == Ok(st1)
    ensures Verify(Prim2(op, l, r), env, st, sh) == Verify(r, env, st1, sh)
  {
    FirstVerifies(l, Cons(r, Nil), env, st, st1, sh);
    assert Verify(Prim2(op, l, r), env, st, sh) == VerifyAll(Cons(l, Cons(r, Nil)), env, st, sh);
    hide Verify;
    var r' := Verify(r, env, st1, sh);
    if r'.Ok? { FirstVerifies(r, Nil, env, st1, r'.value, sh); }
  }

  /** A read of a slot that is not moved. */
  lemma ReadVerifies(idx: nat, env: Env, st: States, sh: Shapes)
    requires |st| == |sh| && idx < |st| && !st[|st| - 1 - idx].Moved?
    ensures Verify(Borrow(DeBruijn(idx)), env, st, sh) == Ok(st)
  {
  }

  lemma SplitVerifies(idx: nat, delimiter: string, k: int, env: Env, st: States, sh: Shapes)
    requires |st| == |sh| && idx < |st| && !st[|st| - 1 - idx].Moved?
    ensures Verify(Prim3(Split, Borrow(DeBruijn(idx)), Text(delimiter), Integer(k)), env, st, sh) == Ok(st)
  {
    ReadVerifies(idx, env, st, sh);
    assert VerifyAll(Cons(Integer(k), Nil), env, st, sh) == Ok(st);
    assert VerifyAll(Cons(Text(delimiter), Cons(Integer(k), Nil)), env, st, sh) == Ok(st);
  }

  lemma {:induction false} PathParamsVerify(indices: seq<nat>, env: Env, st: States, sh: Shapes)
    requires |st| == |sh| == 5 && !st[3].Moved?
    ensures VerifyAll(PathParams(indices), env, st, sh) == Ok(st)
    decreases |indices|
  {
    if indices != [] {
      PathParamsVerify(indices[1..], env, st, sh);
      SplitVerifies(PATH, "/", indices[0], env, st, sh);
    }
  }

  lemma MoveVerifies(f: Expr, idx: nat, rest: Exprs, env: Env, st: States, sh: Shapes)
    requires |st| == |sh| && idx < |st| && st[|st| - 1 - idx].Available?
    requires f.Identifier? && f.name in env.functions
    ensures Verify(Apply(f, Cons(Expr.Move(DeBruijn(idx)), rest)), env, st, sh)
            == VerifyAll(rest, env, st[|st| - 1 - idx := Moved], sh)
  {
    hide FieldFound, ShapeKnown, OperatorKnown, InferShape, Kept, ReadSlot;
    var st1 := st[|st| - 1 - idx := Moved];
    assert Verify(Expr.Move(DeBruijn(idx)), env, st, sh) == Ok(st1);
    FirstVerifies(Expr.Move(DeBruijn(idx)), rest, env, st, st1, sh);
  }

  lemma FirstVerifies(e: Expr, rest: Exprs, env: Env, st: States, st1: States, sh: Shapes)
    requires |st| == |st1| == |sh| && Verify(e, env, st, sh) == Ok(st1)
    ensures VerifyAll(Cons(e, rest), env, st, sh) == VerifyAll(rest, env, st1, sh)
  {
    hide Verify;
  }

  lemma ServeVerifies(handler: Expr, params: Exprs, loopName: string, env: Env, sh: Shapes)
    requires |sh| == 5 && handler.Identifier? && handler.name in env.functions && loopName in env.functions
    requires VerifyAll(params, env, [Available, Moved, Available, Available, Available], sh)
             == Ok([Available, Moved, Available, Available, Available])
    ensures Verify(Serve(handler, params, loopName), env, FIVE, sh) == Ok(SERVED)
  {
    var half := [Available, Moved, Available, Available, Available];
    assert FIVE[1 := Moved] == half && half[0 := Moved] == SERVED;
    MoveVerifies(handler, REQ, params, env, FIVE, sh);
    MoveVerifies(Identifier(loopName), SERVER, Nil, env, half, sh);
    Prim2Verifies(PrimOp.Seq, Apply(handler, Cons(Expr.Move(DeBruijn(REQ)), params)),
                  Apply(Identifier(loopName), Cons(Expr.Move(DeBruijn(SERVER)), Nil)), env, FIVE, half, sh);
  }

  lemma ConditionVerifies(mth: string, path: string, env: Env, sh: Shapes)
    requires |sh| == 5
    ensures Verify(Condition(mth, path), env, FIVE, sh) == Ok(FIVE)
  {
    var m, p := Text("^" + mth + "$"), Text(Pattern(path));
    ReadVerifies(METHOD, env, FIVE, sh);
    ReadVerifies(PATH, env, FIVE, sh);
    Prim2Verifies(Reg, Borrow(DeBruijn(METHOD)), m, env, FIVE, FIVE, sh);
    Prim2Verifies(Reg, Borrow(DeBruijn(PATH)), p, env, FIVE, FIVE, sh);
    Prim2Verifies(Binary(BitAnd), Prim2(Reg, Borrow(DeBruijn(METHOD)), m), Prim2(Reg, Borrow(DeBruijn(PATH)), p), env, FIVE, FIVE, sh);
  }

  /** At every depth of the dispatch tree the five indices mean the same five values, and every branch
      moves the request and the server once each and nothing else. */
  lemma {:induction false} DispatchVerifies(routes: seq<Route>, fallback: Expr, loopName: string, env: Env, sh: Shapes)
    requires |sh| == 5 && Literal(routes) && Handlers(routes, fallback, loopName, env)
    ensures Verify(Dispatch(routes, fallback, loopName), env, FIVE, sh) == Ok(SERVED)
    decreases |routes|
  {
    if routes == [] {
      ServeVerifies(fallback, Nil, loopName, env, sh);
    } else {
      DispatchVerifies(routes[1..], fallback, loopName, env, sh);
      var params := PathParams(ParamIndices(Segments(routes[0].path.text), 0));
      PathParamsVerify(ParamIndices(Segments(routes[0].path.text), 0), env, [Available, Moved, Available, Available, Available], sh);
      ServeVerifies(routes[0].handler, params, loopName, env, sh);
      ConditionVerifies(routes[0].mth.text, routes[0].path.text, env, sh);
    }
  }

  lemma LogVerifies(title: string, idx: nat, env: Env, sh: Shapes)
    requires |sh| == 5 && idx < 5
    ensures Verify(Log(title, idx), env, FIVE, sh) == Ok(FIVE)
  {
    var line := Prim2(Cat, Text(title), Borrow(DeBruijn(idx)));
    ReadVerifies(idx, env, FIVE, sh);
    Prim2Verifies(Cat, Text(title), Borrow(DeBruijn(idx)), env, FIVE, FIVE, sh);
    Prim2Verifies(Write, Integer(1), line, env, FIVE, FIVE, sh);
    Prim2Verifies(Write, Integer(1), Text("\n"), env, FIVE, FIVE, sh);
    Prim2Verifies(PrimOp.Seq, Prim2(Write, Integer(1), line), Prim2(Write, Integer(1), Text("\n")), env, FIVE, FIVE, sh);
  }

  lemma TreeVerifies(routes: seq<Route>, fallback: Expr, loopName: string, env: Env, sh: Shapes)
    requires |sh| == 5 && Literal(routes) && Handlers(routes, fallback, loopName, env)
    ensures Verify(Tree(routes, fallback, loopName), env, FIVE, sh) == Ok(SERVED)
  {
    var raw, path, mth := Log("raw_path: ", RAW_PATH), Log("path: ", PATH), Log("method: ", METHOD);
    LogVerifies("raw_path: ", RAW_PATH, env, sh);
    LogVerifies("path: ", PATH, env, sh);
    LogVerifies("method: ", METHOD, env, sh);
    Prim2Verifies(PrimOp.Seq, path, mth, env, FIVE, FIVE, sh);
    Prim2Verifies(PrimOp.Seq, raw, Prim2(PrimOp.Seq, path, mth), env, FIVE, FIVE, sh);
    DispatchVerifies(routes, fallback, loopName, env, sh);
    Prim2Verifies(PrimOp.Seq, Prim2(PrimOp.Seq, raw, Prim2(PrimOp.Seq, path, mth)), Dispatch(routes, fallback, loopName), env, FIVE, FIVE, sh);
  }

  /** A binding whose value leaves the slots as they are. */
  lemma LetVerifies(name: string, val: Expr, body: Expr, env: Env, st: States, sh: Shapes)
    requires |st| == |sh| && Verify(val, env, st, sh) == Ok(st) && InferShape(val, sh) == None
    requires Verify(body, env, st + [Available], sh + [None]).Ok?
    ensures Verify(Let(name, val, body), env, st, sh)
            == Ok(Verify(body, env, st + [Available], sh + [None]).value[..|st|])
  {
  }

  lemma MethodLetVerifies(tree: Expr, env: Env)
    requires Verify(tree, env, FIVE, [None, None, None, None, None]) == Ok(SERVED)
    ensures Verify(MethodLet(tree), env, FIVE[..4], [None, None, None, None]) == Ok(SERVED[..4])
  {
    var st, sh: Shapes := FIVE[..4], [None, None, None, None];
    assert st + [Available] == FIVE && sh + [None] == [None, None, None, None, None];
    ReadVerifies(2, env, st, sh);
    Prim2Verifies(HttpServer, Integer(1), Borrow(DeBruijn(2)), env, st, st, sh);
    LetVerifies("method", Prim2(HttpServer, Integer(1), Borrow(DeBruijn(2))), tree, env, st, sh);
  }

  lemma PathLetVerifies(body: Expr, env: Env)
    requires Verify(body, env, FIVE[..4], [None, None, None, None]) == Ok(SERVED[..4])
    ensures Verify(PathLet(body), env, FIVE[..3], [None, None, None]) == Ok(SERVED[..3])
  {
    var st, sh: Shapes := FIVE[..3], [None, None, None];
    assert st + [Available] == FIVE[..4] && sh + [None] == [None, None, None, None];
    SplitVerifies(0, "?", 0, env, st, sh);
    LetVerifies("path", Prim3(Split, Borrow(DeBruijn(0)), Text("?"), Integer(0)), body, env, st, sh);
    assert SERVED[..4][..3] == SERVED[..3];
  }

  lemma RawPathLetVerifies(body: Expr, env: Env)
    requires Verify(body, env, FIVE[..3], [None, None, None]) == Ok(SERVED[..3])
    ensures Verify(RawPathLet(body), env, FIVE[..2], [None, None]) == Ok(SERVED[..2])
  {
    var st, sh: Shapes := FIVE[..2], [None, None];
    assert st + [Available] == FIVE[..3] && sh + [None] == [None, None, None];
    ReadVerifies(0, env, st, sh);
    Prim2Verifies(HttpServer, Integer(2), Borrow(DeBruijn(0)), env, st, st, sh);
    LetVerifies("raw_path", Prim2(HttpServer, Integer(2), Borrow(DeBruijn(0))), body, env, st, sh);
    assert SERVED[..3][..2] == SERVED[..2];
  }

  lemma ReqLetVerifies(body: Expr, env: Env)
    requires Verify(body, env, FIVE[..2], [None, None]) == Ok(SERVED[..2])
    ensures Verify(ReqLet(body), env, [Available], [None]) == Ok([Moved])
  {
    var st, sh: Shapes := [Available], [None];
    assert st + [Available] == FIVE[..2] && sh + [None] == [None, None];
    ReadVerifies(0, env, st, sh);
    var val := Prim1(PrimOp.Read, Borrow(DeBruijn(0)));
    assert VerifyAll(Nil, env, st, sh) == Ok(st);
    LetVerifies("req", val, body, env, st, sh);
    assert SERVED[..2][..1] == [Moved];
  }

  /** The generated accept loop is accepted by the checker and consumes its server. */
  lemma LoopVerifies(routes: seq<Route>, fallback: Expr, loopName: string, env: Env)
    requires Literal(routes) && Handlers(routes, fallback, loopName, env)
    ensures Verify(LoopBody(routes, fallback, loopName), env, [Available], [None]) == Ok([Moved])
  {
    var tree := Tree(routes, fallback, loopName);
    TreeVerifies(routes, fallback, loopName, env, [None, None, None, None, None]);
    MethodLetVerifies(tree, env);
    PathLetVerifies(MethodLet(tree), env);
    RawPathLetVerifies(PathLet(MethodLet(tree)), env);
    ReqLetVerifies(RawPathLet(PathLet(MethodLet(tree))), env);
  }

  /** So is the entry, wherever the port expression is. */
  lemma EntryVerifies(port: Expr, loopName: string, env: Env, st: States, sh: Shapes)
    requires |st| == |sh| && loopName in env.functions
    ensures Verify(Entry(port, loopName), env, st, sh) == Verify(port, env, st, sh)
  {
    Prim2Verifies(HttpServer, Integer(0), port, env, st, st, sh);
    var r := Verify(port, env, st, sh);
    if r.Ok? {
      StartVerifies(loopName, env, r.value, sh);
    }
  }

  lemma StartVerifies(loopName: string, env: Env, st: States, sh: Shapes)
    requires |st| == |sh| && loopName in env.functions
    ensures var r := Verify(Apply(Identifier(loopName), Cons(Expr.Move(DeBruijn(0)), Nil)), env, st + [Available], sh + [None]);
      r.Ok? && r.value[..|st|] == st
  {
    MoveVerifies(Identifier(loopName), 0, Nil, env, st + [Available], sh + [None]);
    assert (st + [Available])[|st| := Moved][..|st|] == st;
  }

  // ----- Which route answers -----

  /** The call that serves a request, given the values of the five slots (bottom first) and the answers
      of the regular expressions: the conditions are evaluated, and the branch taken is followed to its
      first call. */
  function Served(tree: Expr, slots: seq<string>, regex: (string, string) -> bool): Option<Expr> {
    match tree
    case If(cond, thn, els) =>
      (match Holds(cond, slots, regex)
       case Some(b) => Served(if b then thn else els, slots, regex)
       case None => None)
    case Prim(Seq, Cons(call, _)) => Some(call)
    case _ => None
  }

  /** A conjunction of two regular expression tests of slots. */
  function Holds(cond: Expr, slots: seq<string>, regex: (string, string) -> bool): Option<bool> {
    match cond
    case Prim(Binary(BitAnd), Cons(l, Cons(r, Nil))) =>
      (match (Tests(l, slots, regex), Tests(r, slots, regex))
       case (Some(a), Some(b)) => Some(a && b)
       case _ => None)
    case _ => None
  }

  function Tests(e: Expr, slots: seq<string>, regex: (string, string) -> bool): Option<bool> {
    match e
    case Prim(Reg, Cons(subject, Cons(Text(pattern), Nil))) =>
      (match BorrowedSlot(subject, |slots|)
       case Some(slot) => Some(regex(slots[slot], pattern))
       case None => None)
    case _ => None
  }

  function BorrowedSlot(e: Expr, n: nat): (slot: Option<nat>)
    ensures slot.Some? ==> slot.value < n
  {
    match e
    case Borrow(DeBruijn(idx)) => if idx < n then Some(n - 1 - idx) else None
    case _ => None
  }

  predicate Matches(route: Route, mth: string, path: string, regex: (string, string) -> bool)
    requires route.mth.Text? && route.path.Text?
  {
    regex(mth, "^" + route.mth.text + "$") && regex(path, Pattern(route.path.text))
  }

  /** The number of the first matching route; `|routes|` if there is none. */
  function FirstMatch(routes: seq<Route>, mth: string, path: string, regex: (string, string) -> bool): (k: nat)
    requires Literal(routes)
    ensures k <= |routes|
    ensures k < |routes| ==> Matches(routes[k], mth, path, regex)
    ensures forall j | 0 <= j < k :: !Matches(routes[j], mth, path, regex)
  {
    if routes == [] then 0
    else if Matches(routes[0], mth, path, regex) then 0
    else
      var k := FirstMatch(routes[1..], mth, path, regex);
      assert forall j | 0 < j < 1 + k :: routes[j] == routes[1..][j - 1];
      1 + k
  }

  lemma ConditionHolds(mth: string, path: string, slots: seq<string>, regex: (string, string) -> bool)
    requires |slots| == 5
    ensures Holds(Condition(mth, path), slots, regex)
            == Some(regex(slots[4], "^" + mth + "$") && regex(slots[3], Pattern(path)))
  {
  }

  lemma ServedHere(handler: Expr, params: Exprs, loopName: string, slots: seq<string>, regex: (string, string) -> bool)
    ensures Served(Serve(handler, params, loopName), slots, regex) == Some(Apply(handler, Cons(Expr.Move(DeBruijn(REQ)), params)))
  {
  }

  /** The dispatch tree calls the handler of the first route that matches, with the request and the
      extracted parameters, and the fallback if none does. */
  lemma {:induction false} FirstMatchServed(routes: seq<Route>, fallback: Expr, loopName: string,
                                            slots: seq<string>, regex: (string, string) -> bool)
    requires Literal(routes) && |slots| == 5
    ensures var k := FirstMatch(routes, slots[4], slots[3], regex);
      Served(Dispatch(routes, fallback, loopName), slots, regex)
      == Some(if k == |routes| then Apply(fallback, Cons(Expr.Move(DeBruijn(REQ)), Nil))
              else Apply(routes[k].handler, Cons(Expr.Move(DeBruijn(REQ)), PathParams(ParamIndices(Segments(routes[k].path.text), 0)))))
    decreases |routes|
  {
    if routes == [] {
      ServedHere(fallback, Nil, loopName, slots, regex);
    } else {
      ServedHere(routes[0].handler, PathParams(ParamIndices(Segments(routes[0].path.text), 0)), loopName, slots, regex);
      ConditionHolds(routes[0].mth.text, routes[0].path.text, slots, regex);
      FirstMatchServed(routes[1..], fallback, loopName, slots, regex);
    }
  }

  // ----- Every dispatch path -----

  lemma {:induction false} PathParamsPlain(indices: seq<nat>)
    ensures AllPlain(PathParams(indices))
    decreases |indices|
  {
    if indices != [] {
      PathParamsPlain(indices[1..]);
      assert AllPlain(Nil);
      assert AllPlain(Cons(Integer(indices[0]), Nil));
      assert AllPlain(Cons(Text("/"), Cons(Integer(indices[0]), Nil)));
      assert Plain(Prim3(Split, Borrow(DeBruijn(PATH)), Text("/"), Integer(indices[0])));
    }
  }

  lemma ServePlain(handler: Expr, params: Exprs, loopName: string)
    requires AllPlain(params)
    ensures Plain(Serve(handler, params, loopName))
  {
    assert AllPlain(Cons(Apply(Identifier(loopName), Cons(Expr.Move(DeBruijn(SERVER)), Nil)), Nil)) by {
      assert AllPlain(Cons(Expr.Move(DeBruijn(SERVER)), Nil));
    }
    assert Plain(Apply(handler, Cons(Expr.Move(DeBruijn(REQ)), params)));
  }

  lemma {:induction false} DispatchPlain(routes: seq<Route>, fallback: Expr, loopName: string)
    requires Literal(routes)
    ensures Plain(Dispatch(routes, fallback, loopName))
    decreases |routes|
  {
    if routes == [] {
      ServePlain(fallback, Nil, loopName);
    } else {
      DispatchPlain(routes[1..], fallback, loopName);
      var indices := ParamIndices(Segments(routes[0].path.text), 0);
      PathParamsPlain(indices);
      ServePlain(routes[0].handler, PathParams(indices), loopName);
      ConditionPlain(routes[0].mth.text, routes[0].path.text);
    }
  }

  lemma ConditionPlain(mth: string, path: string)
    ensures Plain(Condition(mth, path))
  {
    var l, r := Prim2(Reg, Borrow(DeBruijn(METHOD)), Text("^" + mth + "$")), Prim2(Reg, Borrow(DeBruijn(PATH)), Text(Pattern(path)));
    assert AllPlain(Cons(Text("^" + mth + "$"), Nil)) && AllPlain(Cons(Text(Pattern(path)), Nil));
    assert Plain(l) && Plain(r) && AllPlain(Cons(r, Nil));
  }

  /** On every complete path through the code of the dispatch tree the server (slot 0) and the request
      (slot 1) are consumed exactly once, and the three strings never. */
  lemma DispatchConsumesOnce(routes: seq<Route>, fallback: Expr, loopName: string, env: Env, tr: seq<Event>)
    requires Literal(routes) && Handlers(routes, fallback, loopName, env)
    requires var g := Gen(Dispatch(routes, fallback, loopName), env, seq(5, _ => Available), seq(5, _ => None), Params(5), 5);
      g.Ok? ==> IsPath(g.value.code, tr, false)
    ensures Follow(tr, ParamLedger(5)).Some?
    ensures Consumptions(tr, 0) == Consumptions(tr, 1) == 1
    ensures Consumptions(tr, 2) == Consumptions(tr, 3) == Consumptions(tr, 4) == 0
  {
    var st, sh: Shapes := seq(5, _ => Available), seq(5, _ => None);
    assert st == FIVE;
    DispatchVerifies(routes, fallback, loopName, env, sh);
    DispatchPlain(routes, fallback, loopName);
    PlainStrip(Dispatch(routes, fallback, loopName), env, st, sh);
    BodySound(Dispatch(routes, fallback, loopName), env, 5, tr, false);
    assert Consumptions(tr, 2) <= 1 && Consumptions(tr, 3) <= 1 && Consumptions(tr, 4) <= 1;
    assert SERVED[0].Moved? && SERVED[1].Moved? && !SERVED[2].Moved? && !SERVED[3].Moved? && !SERVED[4].Moved?;
  }

  // ----- The expansion itself -----

  /** The analysis of a path template, one segment at a time. */
  method AnalyzePath(path: string) returns (pattern: string, indices: seq<nat>)
    ensures pattern == Pattern(path) && indices == ParamIndices(Segments(path), 0)
  {
    var segments := Segments(path);
    var patterns: seq<string>, strtokIdx := [], 0;
    indices := [];
    var i := 0;
    while i < |segments|
      invariant i <= |segments| && patterns == PatternSegments(segments)[..i]
      invariant indices + ParamIndices(segments[i..], strtokIdx) == ParamIndices(segments, 0)
    {
      var segment := segments[i];
      assert segments[i..][1..] == segments[i + 1..];
      if segment == "" {
        patterns := patterns + [""];
      } else {
        if IsParam(segment) {
          patterns := patterns + ["[^/]+"];
          indices := indices + [strtokIdx];
        } else {
          patterns := patterns + [segment];
        }
        strtokIdx := strtokIdx + 1;
      }
      i := i + 1;
    }
    assert patterns == PatternSegments(segments);
    pattern := "^" + Join(patterns) + "$";
  }

  /** The arguments of a handler: the request and the extracted parameters. */
  method HandlerArgs(indices: seq<nat>) returns (args: seq<Expr>)
    ensures List(args) == Cons(Expr.Move(DeBruijn(REQ)), PathParams(indices))
  {
    args := [Expr.Move(DeBruijn(REQ))];
    var i := 0;
    while i < |indices|
      invariant i <= |indices| && |args| == i + 1 && args[0] == Expr.Move(DeBruijn(REQ))
      invariant forall j | 0 <= j < i :: args[j + 1] == Extract(indices[j])
    {
      args := args + [Extract(indices[i])];
      i := i + 1;
    }
    ListOfParams(indices, args[1..]);
  }

  lemma {:induction false} ListOfParams(indices: seq<nat>, args: seq<Expr>)
    requires |args| == |indices| && forall j | 0 <= j < |indices| :: args[j] == Extract(indices[j])
    ensures List(args) == PathParams(indices)
    decreases |indices|
  {
    if indices != [] {
      ListOfParams(indices[1..], args[1..]);
    }
  }

  /** The loop over the routes, the last one first.  A method or a path that is not a literal is an error. */
  method BuildDispatch(routes: seq<Route>, fallback: Expr, loopName: string) returns (r: Option<Expr>)
    ensures r.Some? <==> Literal(routes)
    ensures r.Some? ==> r.value == Dispatch(routes, fallback, loopName)
  {
    var tree := Serve(fallback, Nil, loopName);
    var i := |routes|;
    while i > 0
      invariant 0 <= i <= |routes| && Literal(routes[i..]) && tree == Dispatch(routes[i..], fallback, loopName)
    {
      i := i - 1;
      var Route(mth, path, handler) := routes[i];
      if !mth.Text? || !path.Text? { return None; }
      var pattern, indices := AnalyzePath(path.text);
      var args := HandlerArgs(indices);
      assert routes[i..][0] == routes[i] && routes[i..][1..] == routes[i + 1..];
      var served := Prim2(PrimOp.Seq, Apply(handler, List(args)), Apply(Identifier(loopName), Cons(Expr.Move(DeBruijn(SERVER)), Nil)));
      var cond := Prim2(Binary(BitAnd),
                        Prim2(Reg, Borrow(DeBruijn(METHOD)), Text("^" + mth.text + "$")),
                        Prim2(Reg, Borrow(DeBruijn(PATH)), Text(pattern)));
      tree := If(cond, served, tree);
    }
    assert routes[0..] == routes;
    return Some(tree);
  }

  /** `parse_router`, from the parsed parts on: the body of the loop function, and the entry. */
  method ExpandRouter(port: Expr, routes: seq<Route>, fallback: Expr, loopName: string) returns (r: Option<(Expr, Expr)>)
    ensures r.Some? <==> Literal(routes)
    ensures r.Some? ==> r.value == (LoopBody(routes, fallback, loopName), Entry(port, loopName))
  {
    var dispatch := BuildDispatch(routes, fallback, loopName);
    if dispatch.None? { return None; }
    var logs := Prim2(PrimOp.Seq, Log("raw_path: ", RAW_PATH), Prim2(PrimOp.Seq, Log("path: ", PATH), Log("method: ", METHOD)));
    var tree := Prim2(PrimOp.Seq, logs, dispatch.value);
    return Some((ReqLet(RawPathLet(PathLet(MethodLet(tree)))), Entry(port, loopName)));
  }
}
