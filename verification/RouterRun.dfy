/** What the loop that `parse_router` of `src/compiler/parser/mod.rs` generates does with a request: an
    evaluator of the expressions it is made of, and the calls that come out. */
module RouterRun {
  import opened Ast
  import opened Router
  import opened Wrappers

  // ----- The runtime -----

  /** A request as it comes in. */
  datatype Incoming = Incoming(mth: string, path: string)

  datatype Val = Num(n: int) | String(s: string) | Server | Request | Result

  /** What the loop does to the world: it writes to a file descriptor, and it calls functions. */
  datatype Event = Wrote(handle: int, text: string) | Called(func: Expr, args: seq<Val>)

  /** The text between delimiters, empty pieces and all. */
  function Pieces(s: string, delims: string): (r: seq<string>)
    ensures r != []
  {
    if s == "" then [""]
    else if s[0] in delims then [""] + Pieces(s[1..], delims)
    else var rest := Pieces(s[1..], delims); [[s[0]] + rest[0]] + rest[1..]
  }

  /** `llm_split`: the `k`th token of `strtok_r`, which passes over empty pieces; nothing if there is none. */
  function TokenAt(s: string, delims: string, k: int): string {
    var tokens := NonEmpty(Pieces(s, delims));
    if 0 <= k < |tokens| then tokens[k] else ""
  }

  // ----- The evaluator -----

  /** The value of an expression and what happened on the way. */
  datatype Outcome = Outcome(val: Val, events: seq<Event>)

  datatype Outcomes = Outcomes(vals: seq<Val>, events: seq<Event>)

  /** A primitive on values.  `(` of the server accepts the request, `srv 1` and `srv 2` are its method and
      its path, and `sr` yields 1 or 0. */
  function Primitive(op: PrimOp, vals: seq<Val>, req: Incoming, regex: (string, string) -> bool): Option<Outcome> {
    match op
    case Read => if vals == [Server] then Some(Outcome(Request, [])) else None
    case HttpServer =>
      if vals == [Num(1), Request] then Some(Outcome(String(req.mth), []))
      else if vals == [Num(2), Request] then Some(Outcome(String(req.path), []))
      else if |vals| == 2 && vals[0] == Num(0) then Some(Outcome(Server, []))
      else None
    case Split =>
      if |vals| == 3 && vals[0].String? && vals[1].String? && vals[2].Num?
      then Some(Outcome(String(TokenAt(vals[0].s, vals[1].s, vals[2].n)), [])) else None
    case Reg =>
      if |vals| == 2 && vals[0].String? && vals[1].String?
      then Some(Outcome(Num(if regex(vals[0].s, vals[1].s) then 1 else 0), [])) else None
    case Binary(BitAnd) =>
      if |vals| == 2 && vals[0] in {Num(0), Num(1)} && vals[1] in {Num(0), Num(1)}
      then Some(Outcome(Num(if vals == [Num(1), Num(1)] then 1 else 0), [])) else None
    case Cat => if |vals| == 2 && vals[0].String? && vals[1].String? then Some(Outcome(String(vals[0].s + vals[1].s), [])) else None
    case Write =>
      if |vals| == 2 && vals[0].Num? && vals[1].String?
      then Some(Outcome(Num(|vals[1].s|), [Wrote(vals[0].n, vals[1].s)])) else None
    case Seq => if |vals| == 2 then Some(Outcome(vals[1], [])) else None
    case _ => None
  }

  /** Evaluation on a stack, its top last; no value where an expression is none of those the loop is made
      of, or goes wrong. */
  function Eval(e: Expr, stack: seq<Val>, req: Incoming, regex: (string, string) -> bool): Option<Outcome>
    decreases e
  {
    match e
    case Integer(n) => Some(Outcome(Num(n), []))
    case Text(s) => Some(Outcome(String(s), []))
    case DeBruijn(idx) => if idx < |stack| then Some(Outcome(stack[|stack| - 1 - idx], [])) else None
    case Move(inner) => Eval(inner, stack, req, regex)
    case Borrow(inner) => Eval(inner, stack, req, regex)
    case Prim(op, args) =>
      (match EvalAll(args, stack, req, regex)
       case None => None
       case Some(outs) =>
         match Primitive(op, outs.vals, req, regex)
         case None => None
         case Some(out) => Some(Outcome(out.val, outs.events + out.events)))
    case Apply(func, args) =>
      (match EvalAll(args, stack, req, regex)
       case None => None
       case Some(outs) => Some(Outcome(Result, outs.events + [Called(func, outs.vals)])))
    case If(cond, thn, els) =>
      (match Eval(cond, stack, req, regex)
       case Some(Outcome(Num(n), events)) =>
         (match Eval(if n != 0 then thn else els, stack, req, regex)
          case Some(out) => Some(Outcome(out.val, events + out.events))
          case None => None)
       case _ => None)
    case Let(_, val, body) =>
      (match Eval(val, stack, req, regex)
       case None => None
       case Some(bound) =>
         match Eval(body, stack + [bound.val], req, regex)
         case Some(out) => Some(Outcome(out.val, bound.events + out.events))
         case None => None)
    case _ => None
  }

  function EvalAll(es: Exprs, stack: seq<Val>, req: Incoming, regex: (string, string) -> bool): (r: Option<Outcomes>)
    decreases es
  {
    match es
    case Nil => Some(Outcomes([], []))
    case Cons(head, tail) =>
      match Eval(head, stack, req, regex)
      case None => None
      case Some(first) =>
        match EvalAll(tail, stack, req, regex)
        case None => None
        case Some(rest) => Some(Outcomes([first.val] + rest.vals, first.events + rest.events))
  }

  // ----- What should come out -----

  /** The path of a request without its query. */
  function PathOf(req: Incoming): string {
    TokenAt(req.path, "?", 0)
  }

  /** The slots at the dispatch tree, bottom first. */
  function Slots(req: Incoming): seq<Val> {
    [Server, Request, String(req.path), String(PathOf(req)), String(req.mth)]
  }

  function Logs(req: Incoming): seq<Event> {
    [Wrote(1, "raw_path: " + req.path), Wrote(1, "\n"),
     Wrote(1, "path: " + PathOf(req)), Wrote(1, "\n"),
     Wrote(1, "method: " + req.mth), Wrote(1, "\n")]
  }

  /** The values of the parameters at these places of the path. */
  function Values(path: string, indices: seq<nat>): (vals: seq<Val>)
    ensures |vals| == |indices|
  {
    seq(|indices|, j requires 0 <= j < |indices| => String(TokenAt(path, "/", indices[j])))
  }

  /** The call that answers a request: the first route that matches its method and its path, with the
      request and the parameters, or the fallback with the request. */
  function Answer(routes: seq<Route>, fallback: Expr, req: Incoming, regex: (string, string) -> bool): Event
    requires Literal(routes)
  {
    var k := FirstMatch(routes, req.mth, PathOf(req), regex);
    if k == |routes| then Called(fallback, [Request])
    else Called(routes[k].handler, [Request] + Values(PathOf(req), ParamIndices(Segments(routes[k].path.text), 0)))
  }

  function Again(loopName: string): Event {
    Called(Identifier(loopName), [Server])
  }

  // ----- It does -----

  lemma SlotRuns(idx: nat, stack: seq<Val>, req: Incoming, regex: (string, string) -> bool)
    requires idx < |stack|
    ensures Eval(Borrow(DeBruijn(idx)), stack, req, regex) == Some(Outcome(stack[|stack| - 1 - idx], []))
    ensures Eval(Expr.Move(DeBruijn(idx)), stack, req, regex) == Some(Outcome(stack[|stack| - 1 - idx], []))
  {
  }

  /** A primitive of operands without effects. */
  lemma Prim1Runs(op: PrimOp, a: Expr, x: Val, stack: seq<Val>, req: Incoming, regex: (string, string) -> bool)
    requires Eval(a, stack, req, regex) == Some(Outcome(x, []))
    ensures Eval(Prim1(op, a), stack, req, regex) == Primitive(op, [x], req, regex)
  {
    hide Primitive;
    assert EvalAll(Nil, stack, req, regex) == Some(Outcomes([], []));
    NoEvents();
    assert [x] + [] == [x];
    assert EvalAll(Cons(a, Nil), stack, req, regex) == Some(Outcomes([x], []));
    Unheard(Primitive(op, [x], req, regex));
  }

  lemma NoEvents()
    ensures var none: seq<Event> := []; none + none == none
  {
  }

  lemma Unheard(out: Option<Outcome>)
    ensures out.Some? ==> Outcome(out.value.val, [] + out.value.events) == out.value
  {
  }

  lemma TwoRun(a: Expr, b: Expr, x: Outcome, y: Outcome, stack: seq<Val>, req: Incoming, regex: (string, string) -> bool)
    requires Eval(a, stack, req, regex) == Some(x) && Eval(b, stack, req, regex) == Some(y)
    ensures EvalAll(Cons(a, Cons(b, Nil)), stack, req, regex) == Some(Outcomes([x.val, y.val], x.events + y.events))
  {
    hide Eval;
    assert EvalAll(Nil, stack, req, regex) == Some(Outcomes([], []));
    assert y.events + [] == y.events && [y.val] + [] == [y.val];
    assert EvalAll(Cons(b, Nil), stack, req, regex) == Some(Outcomes([y.val], y.events));
    assert [x.val] + [y.val] == [x.val, y.val];
  }

  lemma Prim2Runs(op: PrimOp, a: Expr, b: Expr, x: Val, y: Val, stack: seq<Val>, req: Incoming, regex: (string, string) -> bool)
    requires Eval(a, stack, req, regex) == Some(Outcome(x, [])) && Eval(b, stack, req, regex) == Some(Outcome(y, []))
    ensures Eval(Prim2(op, a, b), stack, req, regex) == Primitive(op, [x, y], req, regex)
  {
    hide Primitive;
    TwoRun(a, b, Outcome(x, []), Outcome(y, []), stack, req, regex);
    NoEvents();
    Unheard(Primitive(op, [x, y], req, regex));
  }

  /** One expression and then another, for its value. */
  lemma SeqRuns(a: Expr, b: Expr, x: Outcome, y: Outcome, stack: seq<Val>, req: Incoming, regex: (string, string) -> bool)
    requires Eval(a, stack, req, regex) == Some(x) && Eval(b, stack, req, regex) == Some(y)
    ensures Eval(Prim2(PrimOp.Seq, a, b), stack, req, regex) == Some(Outcome(y.val, x.events + y.events))
  {
    TwoRun(a, b, x, y, stack, req, regex);
    assert x.events + y.events + [] == x.events + y.events;
  }

  lemma ConsRuns(head: Expr, tail: Exprs, x: Val, vals: seq<Val>, stack: seq<Val>, req: Incoming, regex: (string, string) -> bool)
    requires Eval(head, stack, req, regex) == Some(Outcome(x, [])) && EvalAll(tail, stack, req, regex) == Some(Outcomes(vals, []))
    ensures EvalAll(Cons(head, tail), stack, req, regex) == Some(Outcomes([x] + vals, []))
  {
    hide Eval;
    NoEvents();
  }

  lemma SplitRuns(idx: nat, delims: string, k: int, stack: seq<Val>, req: Incoming, regex: (string, string) -> bool)
    requires idx < |stack| && stack[|stack| - 1 - idx].String?
    ensures Eval(Prim3(Split, Borrow(DeBruijn(idx)), Text(delims), Integer(k)), stack, req, regex)
            == Some(Outcome(String(TokenAt(stack[|stack| - 1 - idx].s, delims, k)), []))
  {
    hide TokenAt;
    SlotRuns(idx, stack, req, regex);
    TwoRun(Text(delims), Integer(k), Outcome(String(delims), []), Outcome(Num(k), []), stack, req, regex);
    NoEvents();
    var x := stack[|stack| - 1 - idx];
    ConsRuns(Borrow(DeBruijn(idx)), Cons(Text(delims), Cons(Integer(k), Nil)), x, [String(delims), Num(k)], stack, req, regex);
    assert [x] + [String(delims), Num(k)] == [x, String(delims), Num(k)];
  }

  lemma LetRuns(name: string, val: Expr, body: Expr, x: Val, out: Outcome, stack: seq<Val>, req: Incoming, regex: (string, string) -> bool)
    requires Eval(val, stack, req, regex) == Some(Outcome(x, [])) && Eval(body, stack + [x], req, regex) == Some(out)
    ensures Eval(Let(name, val, body), stack, req, regex) == Some(out)
  {
    Unheard(Some(out));
  }

  lemma IfRuns(cond: Expr, thn: Expr, els: Expr, b: bool, out: Outcome, stack: seq<Val>, req: Incoming, regex: (string, string) -> bool)
    requires Eval(cond, stack, req, regex) == Some(Outcome(Num(if b then 1 else 0), []))
    requires Eval(if b then thn else els, stack, req, regex) == Some(out)
    ensures Eval(If(cond, thn, els), stack, req, regex) == Some(out)
  {
    Unheard(Some(out));
  }

  lemma {:induction false} ParamsRun(indices: seq<nat>, req: Incoming, regex: (string, string) -> bool)
    ensures EvalAll(PathParams(indices), Slots(req), req, regex) == Some(Outcomes(Values(PathOf(req), indices), []))
    decreases |indices|
  {
    hide TokenAt;
    if indices != [] {
      ParamsRun(indices[1..], req, regex);
      SplitRuns(PATH, "/", indices[0], Slots(req), req, regex);
      var first := String(TokenAt(PathOf(req), "/", indices[0]));
      assert Values(PathOf(req), indices) == [first] + Values(PathOf(req), indices[1..]);
    } else {
      assert Values(PathOf(req), []) == [];
    }
  }

  lemma CallRuns(func: Expr, idx: nat, params: Exprs, vals: seq<Val>, req: Incoming, regex: (string, string) -> bool)
    requires idx < 5 && EvalAll(params, Slots(req), req, regex) == Some(Outcomes(vals, []))
    ensures Eval(Apply(func, Cons(Expr.Move(DeBruijn(idx)), params)), Slots(req), req, regex)
            == Some(Outcome(Result, [Called(func, [Slots(req)[4 - idx]] + vals)]))
  {
    SlotRuns(idx, Slots(req), req, regex);
    ConsRuns(Expr.Move(DeBruijn(idx)), params, Slots(req)[4 - idx], vals, Slots(req), req, regex);
    var called := [Called(func, [Slots(req)[4 - idx]] + vals)];
    assert [] + called == called;
  }

  lemma ServeRuns(handler: Expr, params: Exprs, vals: seq<Val>, loopName: string, req: Incoming, regex: (string, string) -> bool)
    requires EvalAll(params, Slots(req), req, regex) == Some(Outcomes(vals, []))
    ensures Eval(Serve(handler, params, loopName), Slots(req), req, regex)
            == Some(Outcome(Result, [Called(handler, [Request] + vals), Again(loopName)]))
  {
    hide Eval;
    CallRuns(handler, REQ, params, vals, req, regex);
    assert EvalAll(Nil, Slots(req), req, regex) == Some(Outcomes([], []));
    CallRuns(Identifier(loopName), SERVER, Nil, [], req, regex);
    assert [Server] + [] == [Server];
    SeqRuns(Apply(handler, Cons(Expr.Move(DeBruijn(REQ)), params)),
            Apply(Identifier(loopName), Cons(Expr.Move(DeBruijn(SERVER)), Nil)),
            Outcome(Result, [Called(handler, [Request] + vals)]), Outcome(Result, [Again(loopName)]), Slots(req), req, regex);
    assert [Called(handler, [Request] + vals)] + [Again(loopName)] == [Called(handler, [Request] + vals), Again(loopName)];
  }

  lemma ConditionRuns(mth: string, path: string, req: Incoming, regex: (string, string) -> bool)
    ensures Eval(Condition(mth, path), Slots(req), req, regex)
            == Some(Outcome(Num(if regex(req.mth, "^" + mth + "$") && regex(PathOf(req), Pattern(path)) then 1 else 0), []))
  {
    hide Eval, PathOf, Pattern;
    var stack, m, p := Slots(req), "^" + mth + "$", Pattern(path);
    SlotRuns(METHOD, stack, req, regex);
    SlotRuns(PATH, stack, req, regex);
    TextRuns(m, stack, req, regex);
    TextRuns(p, stack, req, regex);
    Prim2Runs(Reg, Borrow(DeBruijn(METHOD)), Text(m), String(req.mth), String(m), stack, req, regex);
    Prim2Runs(Reg, Borrow(DeBruijn(PATH)), Text(p), String(PathOf(req)), String(p), stack, req, regex);
    var a, b := Num(if regex(req.mth, m) then 1 else 0), Num(if regex(PathOf(req), p) then 1 else 0);
    Prim2Runs(Binary(BitAnd), Prim2(Reg, Borrow(DeBruijn(METHOD)), Text(m)), Prim2(Reg, Borrow(DeBruijn(PATH)), Text(p)),
              a, b, stack, req, regex);
  }

  lemma TextRuns(s: string, stack: seq<Val>, req: Incoming, regex: (string, string) -> bool)
    ensures Eval(Text(s), stack, req, regex) == Some(Outcome(String(s), []))
  {
  }

  /** The dispatch tree makes the call that answers the request, and goes back to the loop. */
  lemma {:induction false} DispatchRuns(routes: seq<Route>, fallback: Expr, loopName: string, req: Incoming, regex: (string, string) -> bool)
    requires Literal(routes)
    ensures Eval(Dispatch(routes, fallback, loopName), Slots(req), req, regex)
            == Some(Outcome(Result, [Answer(routes, fallback, req, regex), Again(loopName)]))
    decreases |routes|
  {
    hide Eval, Condition, Serve, Slots, PathOf, ParamIndices, Segments, Pattern, Values;
    if routes == [] {
      assert EvalAll(Nil, Slots(req), req, regex) == Some(Outcomes([], []));
      assert [Request] + [] == [Request] && FirstMatch(routes, req.mth, PathOf(req), regex) == 0;
      ServeRuns(fallback, Nil, [], loopName, req, regex);
    } else {
      var path := routes[0].path.text;
      var indices := ParamIndices(Segments(path), 0);
      ConditionRuns(routes[0].mth.text, path, req, regex);
      ParamsRun(indices, req, regex);
      ServeRuns(routes[0].handler, PathParams(indices), Values(PathOf(req), indices), loopName, req, regex);
      DispatchRuns(routes[1..], fallback, loopName, req, regex);
      var matched := Matches(routes[0], req.mth, PathOf(req), regex);
      var answer := Answer(routes, fallback, req, regex);
      assert answer == if matched then Called(routes[0].handler, [Request] + Values(PathOf(req), indices))
                       else Answer(routes[1..], fallback, req, regex);
      IfRuns(Condition(routes[0].mth.text, path), Serve(routes[0].handler, PathParams(indices), loopName),
             Dispatch(routes[1..], fallback, loopName), matched, Outcome(Result, [answer, Again(loopName)]), Slots(req), req, regex);
    }
  }

  lemma LogRuns(title: string, idx: nat, s: string, req: Incoming, regex: (string, string) -> bool)
    requires idx < 5 && Slots(req)[4 - idx] == String(s)
    ensures Eval(Log(title, idx), Slots(req), req, regex) == Some(Outcome(Num(1), [Wrote(1, title + s), Wrote(1, "\n")]))
  {
    hide Eval, Slots;
    var stack := Slots(req);
    assert |stack| == 5 by { FiveSlots(req); }
    var line := Prim2(Cat, Text(title), Borrow(DeBruijn(idx)));
    SlotRuns(idx, stack, req, regex);
    TextRuns(title, stack, req, regex);
    TextRuns("\n", stack, req, regex);
    NumRuns(1, stack, req, regex);
    Prim2Runs(Cat, Text(title), Borrow(DeBruijn(idx)), String(title), String(s), stack, req, regex);
    Prim2Runs(Write, Integer(1), line, Num(1), String(title + s), stack, req, regex);
    Prim2Runs(Write, Integer(1), Text("\n"), Num(1), String("\n"), stack, req, regex);
    SeqRuns(Prim2(Write, Integer(1), line), Prim2(Write, Integer(1), Text("\n")),
            Outcome(Num(|title + s|), [Wrote(1, title + s)]), Outcome(Num(1), [Wrote(1, "\n")]), stack, req, regex);
    assert [Wrote(1, title + s)] + [Wrote(1, "\n")] == [Wrote(1, title + s), Wrote(1, "\n")];
  }

  lemma FiveSlots(req: Incoming)
    ensures |Slots(req)| == 5
  {
  }

  lemma NumRuns(n: int, stack: seq<Val>, req: Incoming, regex: (string, string) -> bool)
    ensures Eval(Integer(n), stack, req, regex) == Some(Outcome(Num(n), []))
  {
  }

  lemma TreeRuns(routes: seq<Route>, fallback: Expr, loopName: string, req: Incoming, regex: (string, string) -> bool)
    requires Literal(routes)
    ensures Eval(Tree(routes, fallback, loopName), Slots(req), req, regex)
            == Some(Outcome(Result, Logs(req) + [Answer(routes, fallback, req, regex), Again(loopName)]))
  {
    hide Eval, Log, Dispatch, PathOf, Answer;
    var raw, path, mth := Log("raw_path: ", RAW_PATH), Log("path: ", PATH), Log("method: ", METHOD);
    LogRuns("raw_path: ", RAW_PATH, req.path, req, regex);
    LogRuns("path: ", PATH, PathOf(req), req, regex);
    LogRuns("method: ", METHOD, req.mth, req, regex);
    var a, b, c := Outcome(Num(1), [Wrote(1, "raw_path: " + req.path), Wrote(1, "\n")]),
      Outcome(Num(1), [Wrote(1, "path: " + PathOf(req)), Wrote(1, "\n")]), Outcome(Num(1), [Wrote(1, "method: " + req.mth), Wrote(1, "\n")]);
    SeqRuns(path, mth, b, c, Slots(req), req, regex);
    assert b.events + c.events == Logs(req)[2..];
    SeqRuns(raw, Prim2(PrimOp.Seq, path, mth), a, Outcome(Num(1), Logs(req)[2..]), Slots(req), req, regex);
    assert a.events + Logs(req)[2..] == Logs(req);
    DispatchRuns(routes, fallback, loopName, req, regex);
    SeqRuns(Prim2(PrimOp.Seq, raw, Prim2(PrimOp.Seq, path, mth)), Dispatch(routes, fallback, loopName), Outcome(Num(1), Logs(req)),
            Outcome(Result, [Answer(routes, fallback, req, regex), Again(loopName)]), Slots(req), req, regex);
  }

  /** One trip around the loop: whatever the request, the loop accepts it, logs its path, the path without
      its query and its method, calls the handler of the first route that matches, and enters itself again
      with the server. */
  lemma LoopServes(routes: seq<Route>, fallback: Expr, loopName: string, req: Incoming, regex: (string, string) -> bool)
    requires Literal(routes)
    ensures Eval(LoopBody(routes, fallback, loopName), [Server], req, regex)
            == Some(Outcome(Result, Logs(req) + [Answer(routes, fallback, req, regex), Again(loopName)]))
  {
    hide Eval, Tree, Answer, TokenAt, Logs;
    var tree := Tree(routes, fallback, loopName);
    var out := Outcome(Result, Logs(req) + [Answer(routes, fallback, req, regex), Again(loopName)]);
    var s1, s2, s3, s4 := [Server], [Server, Request], [Server, Request, String(req.path)],
      [Server, Request, String(req.path), String(PathOf(req))];
    TreeRuns(routes, fallback, loopName, req, regex);
    assert s4 + [String(req.mth)] == Slots(req);
    SlotRuns(2, s4, req, regex);
    NumRuns(1, s4, req, regex);
    Prim2Runs(HttpServer, Integer(1), Borrow(DeBruijn(2)), Num(1), Request, s4, req, regex);
    LetRuns("method", Prim2(HttpServer, Integer(1), Borrow(DeBruijn(2))), tree, String(req.mth), out, s4, req, regex);
    assert s3 + [String(PathOf(req))] == s4;
    SplitRuns(0, "?", 0, s3, req, regex);
    LetRuns("path", Prim3(Split, Borrow(DeBruijn(0)), Text("?"), Integer(0)), MethodLet(tree), String(PathOf(req)), out, s3, req, regex);
    assert s2 + [String(req.path)] == s3;
    SlotRuns(0, s2, req, regex);
    NumRuns(2, s2, req, regex);
    Prim2Runs(HttpServer, Integer(2), Borrow(DeBruijn(0)), Num(2), Request, s2, req, regex);
    LetRuns("raw_path", Prim2(HttpServer, Integer(2), Borrow(DeBruijn(0))), PathLet(MethodLet(tree)), String(req.path), out, s2, req, regex);
    assert s1 + [Request] == s2;
    SlotRuns(0, s1, req, regex);
    Prim1Runs(PrimOp.Read, Borrow(DeBruijn(0)), Server, s1, req, regex);
    LetRuns("req", Prim1(PrimOp.Read, Borrow(DeBruijn(0))), RawPathLet(PathLet(MethodLet(tree))), Request, out, s1, req, regex);
  }

  /** The entry opens a server on the port and enters the loop with it. */
  lemma EntryRuns(port: Expr, loopName: string, stack: seq<Val>, at: Outcome, req: Incoming, regex: (string, string) -> bool)
    requires Eval(port, stack, req, regex) == Some(at)
    ensures Eval(Entry(port, loopName), stack, req, regex) == Some(Outcome(Result, at.events + [Again(loopName)]))
  {
    ServerRuns(port, stack, at, req, regex);
    StartRuns(loopName, stack + [Server], req, regex);
    hide Primitive, EvalAll;
  }

  lemma ServerRuns(port: Expr, stack: seq<Val>, at: Outcome, req: Incoming, regex: (string, string) -> bool)
    requires Eval(port, stack, req, regex) == Some(at)
    ensures Eval(Prim2(HttpServer, Integer(0), port), stack, req, regex) == Some(Outcome(Server, at.events))
  {
    NumRuns(0, stack, req, regex);
    TwoRun(Integer(0), port, Outcome(Num(0), []), at, stack, req, regex);
    assert [] + at.events == at.events && at.events + [] == at.events;
  }

  lemma StartRuns(loopName: string, stack: seq<Val>, req: Incoming, regex: (string, string) -> bool)
    requires stack != [] && stack[|stack| - 1] == Server
    ensures Eval(Apply(Identifier(loopName), Cons(Expr.Move(DeBruijn(0)), Nil)), stack, req, regex) == Some(Outcome(Result, [Again(loopName)]))
  {
    SlotRuns(0, stack, req, regex);
    assert EvalAll(Nil, stack, req, regex) == Some(Outcomes([], []));
    ConsRuns(Expr.Move(DeBruijn(0)), Nil, Server, [], stack, req, regex);
    assert [Server] + [] == [Server];
    assert [] + [Again(loopName)] == [Again(loopName)];
  }

  // ----- Request after request -----

  /** The loop over the requests that come in: what it does to each, as long as it ends by entering itself
      again with the server. */
  function Run(body: Expr, loopName: string, incoming: seq<Incoming>, regex: (string, string) -> bool): Option<seq<Event>> {
    if incoming == [] then Some([])
    else
      match Eval(body, [Server], incoming[0], regex)
      case None => None
      case Some(out) =>
        var events := out.events;
        if events == [] || events[|events| - 1] != Again(loopName) then None
        else match Run(body, loopName, incoming[1..], regex)
             case None => None
             case Some(rest) => Some(events[..|events| - 1] + rest)
  }

  function Answers(routes: seq<Route>, fallback: Expr, incoming: seq<Incoming>, regex: (string, string) -> bool): seq<Event>
    requires Literal(routes)
  {
    if incoming == [] then []
    else Logs(incoming[0]) + [Answer(routes, fallback, incoming[0], regex)] + Answers(routes, fallback, incoming[1..], regex)
  }

  /** Every request is answered once, in the order in which they come in. */
  lemma {:induction false} EveryRequestAnswered(routes: seq<Route>, fallback: Expr, loopName: string,
                                                incoming: seq<Incoming>, regex: (string, string) -> bool)
    requires Literal(routes)
    ensures Run(LoopBody(routes, fallback, loopName), loopName, incoming, regex)
            == Some(Answers(routes, fallback, incoming, regex))
    decreases |incoming|
  {
    hide Eval, LoopBody, Answer, Logs;
    if incoming != [] {
      var req := incoming[0];
      LoopServes(routes, fallback, loopName, req, regex);
      var answer := Answer(routes, fallback, req, regex);
      var events := Logs(req) + [answer, Again(loopName)];
      assert events[..|events| - 1] == Logs(req) + [answer];
      EveryRequestAnswered(routes, fallback, loopName, incoming[1..], regex);
    }
  }

  // ----- The parameters of a handler -----

  lemma {:induction false} PiecesAreSegments(s: string)
    ensures Pieces(s, "/") == Segments(s)
    decreases |s|
  {
    if s != "" { PiecesAreSegments(s[1..]); }
  }

  /** For a request whose path fills the template, a handler is passed what stands there for the
      parameters, in order. */
  lemma HandlerParams(template: seq<string>, request: seq<string>)
    requires template != [] && Fills(template, request)
    ensures var vals := Values(Join(request), ParamIndices(template, 0));
      |vals| == |ParamValues(template, request)|
      && forall j | 0 <= j < |vals| :: vals[j] == String(ParamValues(template, request)[j])
  {
    hide Fills, ParamIndices, ParamValues, Segments, Join;
    var path := Join(request);
    MatchedParams(template, request);
    PiecesAreSegments(path);
  }

  /** A path without a question mark is kept whole, and otherwise what stands before the first one is. */
  lemma PathBeforeQuery(req: Incoming, path: string, query: string)
    requires path != "" && '?' !in path && (req.path == path || req.path == path + "?" + query)
    ensures PathOf(req) == path
  {
    FirstPiece(path, query);
    if req.path == path {
      assert Pieces(req.path, "?") == [path];
    }
  }

  lemma {:induction false} FirstPiece(path: string, query: string)
    requires '?' !in path
    ensures Pieces(path, "?") == [path] && Pieces(path + "?" + query, "?") == [path] + Pieces(query, "?")
    decreases |path|
  {
    if path == "" {
      assert "" + "?" + query == ['?'] + query;
    } else {
      assert (path + "?" + query)[1..] == path[1..] + "?" + query;
      FirstPiece(path[1..], query);
      assert [path[0]] + path[1..] == path;
    }
  }
}
