/** The translation of a function body to an OpenCL kernel (`translate_to_opencl` of
    `src/compiler/codegen/expr.rs`): from slots counted from the top of the stack to named C variables. */
module OpenCl {
  import opened Ast
  import opened Printing
  import opened Wrappers

  /** The emitted C: `Block` is a statement expression that declares a local. */
  datatype CExpr =
    | Number(value: int)
    | Variable(name: string)
    | Operation(op: BinOp, left: CExpr, right: CExpr)
    | Block(name: string, init: CExpr, body: CExpr)
    | Conditional(cond: CExpr, thn: CExpr, els: CExpr)

  predicate IsPair(args: Exprs) {
    args.Cons? && args.tail.Cons? && args.tail.tail.Nil?
  }

  predicate Supported(op: BinOp) {
    op.Add? || op.Sub? || op.Mul? || op.Div? || op.Eq? || op.Lt? || op.Gt?
  }

  function ParamName(i: nat): string {
    "param_" + Digits(i)
  }

  function LocalName(name: string): string {
    "local_" + name
  }

  /** `translate_expr`: no value for what the translator does not support. */
  function Translate(e: Expr, names: seq<string>): Option<CExpr>
    decreases e
  {
    match e
    case Integer(value) => Some(Number(value))
    case DeBruijn(idx) => if idx < |names| then Some(Variable(names[|names| - 1 - idx])) else None
    case Prim(op, args) =>
      if op.Binary? && Supported(op.op) && IsPair(args) then
        match (Translate(args.head, names), Translate(args.tail.head, names))
        case (Some(l), Some(r)) => Some(Operation(op.op, l, r))
        case _ => None
      else None
    case Let(name, val, body) =>
      (match (Translate(val, names), Translate(body, names + [LocalName(name)]))
       case (Some(v), Some(b)) => Some(Block(LocalName(name), v, b))
       case _ => None)
    case If(cond, thn, els) =>
      (match (Translate(cond, names), Translate(thn, names), Translate(els, names))
       case (Some(c), Some(t), Some(f)) => Some(Conditional(c, t, f))
       case _ => None)
    case _ => None
  }

  function ParamNames(n: nat): (names: seq<string>)
    ensures |names| == n && forall i | 0 <= i < n :: names[i] == ParamName(i)
  {
    seq(n, i requires 0 <= i => ParamName(i))
  }

  // ----- What both sides mean -----

  const LONG: nat := 0x1_0000_0000_0000_0000
  const HALF: nat := 0x8000_0000_0000_0000

  function Wrap(n: int): int {
    (n + HALF) % LONG - HALF
  }

  /** Division truncates toward zero. */
  function Quotient(a: int, b: int): int
    requires b != 0
  {
    if a >= 0 then a / b else -((-a) / b)
  }

  /** The operators on 64-bit integers; no value where the result is undefined. */
  function Apply(op: BinOp, a: int, b: int): Option<int> {
    match op
    case Add => Some(Wrap(a + b))
    case Sub => Some(Wrap(a - b))
    case Mul => Some(Wrap(a * b))
    case Div => if b == 0 || (a == -(HALF as int) && b == -1) then None else Some(Quotient(a, b))
    case Eq => Some(if a == b then 1 else 0)
    case Lt => Some(if a < b then 1 else 0)
    case Gt => Some(if a > b then 1 else 0)
    case _ => None
  }

  function ApplyTo(op: BinOp, a: Option<int>, b: Option<int>): Option<int> {
    if a.Some? && b.Some? then Apply(op, a.value, b.value) else None
  }

  /** The meaning of a body on its stack. */
  function Eval(e: Expr, stack: seq<int>): Option<int>
    decreases e
  {
    match e
    case Integer(value) => Some(value)
    case DeBruijn(idx) => if idx < |stack| then Some(stack[|stack| - 1 - idx]) else None
    case Prim(op, args) =>
      if op.Binary? && IsPair(args) then ApplyTo(op.op, Eval(args.head, stack), Eval(args.tail.head, stack)) else None
    case Let(_, val, body) =>
      (match Eval(val, stack)
       case Some(v) => Eval(body, stack + [v])
       case None => None)
    case If(cond, thn, els) =>
      (match Eval(cond, stack)
       case Some(c) => if c != 0 then Eval(thn, stack) else Eval(els, stack)
       case None => None)
    case _ => None
  }

  /** The meaning of the emitted C.  A declared name is in scope in its own initializer, where it has no
      value yet. */
  function CEval(c: CExpr, env: map<string, Option<int>>): Option<int>
    decreases c
  {
    match c
    case Number(value) => Some(value)
    case Variable(name) => if name in env then env[name] else None
    case Operation(op, l, r) => ApplyTo(op, CEval(l, env), CEval(r, env))
    case Block(name, init, body) =>
      (match CEval(init, env[name := None])
       case Some(v) => CEval(body, env[name := Some(v)])
       case None => None)
    case Conditional(cond, thn, els) =>
      (match CEval(cond, env)
       case Some(v) => if v != 0 then CEval(thn, env) else CEval(els, env)
       case None => None)
  }

  // ----- Which bodies are translated -----

  /** Integers, slots of a stack of `n`, sums, differences, products, quotients and comparisons of two
      such bodies, and bindings and conditionals of them. */
  predicate Arithmetic(e: Expr, n: nat)
    decreases e
  {
    || e.Integer?
    || (e.DeBruijn? && e.idx < n)
    || (e.Prim? && e.op in {Binary(Add), Binary(Sub), Binary(Mul), Binary(Div), Binary(Eq), Binary(Lt), Binary(Gt)}
        && Length(e.args) == 2 && AllArithmetic(e.args, n))
    || (e.Let? && Arithmetic(e.val, n) && Arithmetic(e.body, n + 1))
    || (e.If? && Arithmetic(e.cond, n) && Arithmetic(e.thn, n) && Arithmetic(e.els, n))
  }

  predicate AllArithmetic(es: Exprs, n: nat)
    decreases es
  {
    es.Cons? ==> Arithmetic(es.head, n) && AllArithmetic(es.tail, n)
  }

  lemma PairIsTwo(args: Exprs)
    ensures IsPair(args) <==> Length(args) == 2
  {
    if args.Cons? && args.tail.Cons? { assert Length(args) == 2 + Length(args.tail.tail); }
  }

  lemma PairArithmetic(args: Exprs, n: nat)
    requires IsPair(args)
    ensures AllArithmetic(args, n) <==> Arithmetic(args.head, n) && Arithmetic(args.tail.head, n)
  {
    hide Arithmetic;
    assert AllArithmetic(args.tail.tail, n);
    assert AllArithmetic(args.tail, n) <==> Arithmetic(args.tail.head, n);
  }

  /** Exactly those bodies are translated, and no other. */
  lemma {:induction false} TranslatesExactly(e: Expr, names: seq<string>)
    ensures Translate(e, names).Some? <==> Arithmetic(e, |names|)
    decreases e
  {
    match e
    case Prim(op, args) =>
      PairIsTwo(args);
      if IsPair(args) {
        TranslatesExactly(args.head, names);
        TranslatesExactly(args.tail.head, names);
        PairArithmetic(args, |names|);
      }
    case Let(name, val, body) =>
      TranslatesExactly(val, names);
      TranslatesExactly(body, names + [LocalName(name)]);
    case If(cond, thn, els) =>
      TranslatesExactly(cond, names);
      TranslatesExactly(thn, names);
      TranslatesExactly(els, names);
    case _ =>
  }

  // ----- Which bodies keep their meaning -----

  /** The slots still visible by name once `name` is declared. */
  function Unshadowed(names: seq<string>, visible: set<nat>, name: string): set<nat> {
    set k | k in visible && k < |names| && names[k] != name
  }

  /** Every slot that `e` refers to is the innermost of its name where `e` refers to it. */
  predicate NoCapture(e: Expr, names: seq<string>, visible: set<nat>)
    decreases e
  {
    match e
    case DeBruijn(idx) => idx < |names| ==> |names| - 1 - idx in visible
    case Prim(op, args) => IsPair(args) ==> NoCapture(args.head, names, visible) && NoCapture(args.tail.head, names, visible)
    case Let(name, val, body) =>
      var local := LocalName(name);
      && NoCapture(val, names, Unshadowed(names, visible, local))
      && NoCapture(body, names + [local], Unshadowed(names, visible, local) + {|names|})
    case If(cond, thn, els) => NoCapture(cond, names, visible) && NoCapture(thn, names, visible) && NoCapture(els, names, visible)
    case _ => true
  }

  /** The C variables of the visible slots hold the slots' values. */
  predicate Agrees(names: seq<string>, visible: set<nat>, stack: seq<int>, env: map<string, Option<int>>) {
    |names| == |stack| && forall k | k in visible && k < |names| :: names[k] in env && env[names[k]] == Some(stack[k])
  }

  lemma {:induction false} TranslationPreserves(e: Expr, names: seq<string>, visible: set<nat>, stack: seq<int>, env: map<string, Option<int>>)
    requires Translate(e, names).Some? && NoCapture(e, names, visible) && Agrees(names, visible, stack, env)
    ensures CEval(Translate(e, names).value, env) == Eval(e, stack)
    decreases e
  {
    match e
    case Prim(op, args) =>
      TranslationPreserves(args.head, names, visible, stack, env);
      TranslationPreserves(args.tail.head, names, visible, stack, env);
    case Let(name, val, body) =>
      var local := LocalName(name);
      var left := Unshadowed(names, visible, local);
      TranslationPreserves(val, names, left, stack, env[local := None]);
      var v := Eval(val, stack);
      if v.Some? {
        TranslationPreserves(body, names + [local], left + {|names|}, stack + [v.value], env[local := v]);
      }
    case If(cond, thn, els) =>
      TranslationPreserves(cond, names, visible, stack, env);
      TranslationPreserves(thn, names, visible, stack, env);
      TranslationPreserves(els, names, visible, stack, env);
    case _ =>
  }

  function AllSlots(n: nat): (slots: set<nat>)
    ensures forall k :: k in slots <==> 0 <= k < n
  {
    if n == 0 then {} else AllSlots(n - 1) + {n - 1}
  }

  /** The kernel of a function of one parameter computes the function, for every input. */
  lemma KernelCorrect(body: Expr, input: int)
    requires Translate(body, ParamNames(1)).Some? && NoCapture(body, ParamNames(1), AllSlots(1))
    ensures CEval(Translate(body, ParamNames(1)).value, map[ParamName(0) := Some(input)]) == Eval(body, [input])
  {
    TranslationPreserves(body, ParamNames(1), AllSlots(1), [input], map[ParamName(0) := Some(input)]);
  }

  // ----- Capture is the only obstacle -----

  /** A name that C has in scope: the slot it stands for, or none inside its own initializer. */
  datatype Declared = Declared(name: string, slot: Option<nat>)

  function Innermost(scope: seq<Declared>, name: string): (r: Option<nat>)
    decreases |scope|
  {
    if scope == [] then None
    else if scope[|scope| - 1].name == name then scope[|scope| - 1].slot
    else Innermost(scope[..|scope| - 1], name)
  }

  /** Reads emitted C back, each name as the innermost declaration in scope, with `depth` slots on the
      stack. */
  function Readback(c: CExpr, scope: seq<Declared>, depth: nat): Option<Expr>
    decreases c
  {
    match c
    case Number(value) => Some(Integer(value))
    case Variable(name) =>
      (match Innermost(scope, name)
       case Some(slot) => if slot < depth then Some(DeBruijn(depth - 1 - slot)) else None
       case None => None)
    case Operation(op, l, r) =>
      (match (Readback(l, scope, depth), Readback(r, scope, depth))
       case (Some(x), Some(y)) => Some(Prim(Binary(op), Cons(x, Cons(y, Nil))))
       case _ => None)
    case Block(name, init, body) =>
      (match (Readback(init, scope + [Declared(name, None)], depth), Readback(body, scope + [Declared(name, Some(depth))], depth + 1))
       case (Some(v), Some(b)) => if |name| >= 6 then Some(Let(name[6..], v, b)) else None
       case _ => None)
    case Conditional(cond, thn, els) =>
      (match (Readback(cond, scope, depth), Readback(thn, scope, depth), Readback(els, scope, depth))
       case (Some(x), Some(y), Some(z)) => Some(If(x, y, z))
       case _ => None)
  }

  /** The visible slots are those that C finds under their names. */
  predicate Mirrors(names: seq<string>, visible: set<nat>, scope: seq<Declared>) {
    forall k: nat | k < |names| :: k in visible <==> Innermost(scope, names[k]) == Some(k)
  }

  lemma InnermostPush(scope: seq<Declared>, d: Declared, name: string)
    ensures Innermost(scope + [d], name) == if d.name == name then d.slot else Innermost(scope, name)
  {
    assert (scope + [d])[..|scope|] == scope;
  }

  lemma {:induction false} ReadbackExact(e: Expr, names: seq<string>, visible: set<nat>, scope: seq<Declared>)
    requires Translate(e, names).Some? && Mirrors(names, visible, scope)
    ensures Readback(Translate(e, names).value, scope, |names|) == Some(e) <==> NoCapture(e, names, visible)
    decreases e
  {
    match e
    case DeBruijn(idx) => assert Mirrors(names, visible, scope);
    case Prim(op, args) =>
      ReadbackExact(args.head, names, visible, scope);
      ReadbackExact(args.tail.head, names, visible, scope);
      assert args == Cons(args.head, Cons(args.tail.head, Nil));
    case Let(name, val, body) =>
      var local := LocalName(name);
      var left := Unshadowed(names, visible, local);
      var inside, after := scope + [Declared(local, None)], scope + [Declared(local, Some(|names|))];
      forall k: nat | k < |names| ensures k in left <==> Innermost(inside, names[k]) == Some(k) {
        InnermostPush(scope, Declared(local, None), names[k]);
      }
      forall k: nat | k < |names + [local]| ensures k in left + {|names|} <==> Innermost(after, (names + [local])[k]) == Some(k) {
        InnermostPush(scope, Declared(local, Some(|names|)), (names + [local])[k]);
      }
      ReadbackExact(val, names, left, inside);
      ReadbackExact(body, names + [local], left + {|names|}, after);
      assert local[6..] == name;
    case If(cond, thn, els) =>
      ReadbackExact(cond, names, visible, scope);
      ReadbackExact(thn, names, visible, scope);
      ReadbackExact(els, names, visible, scope);
    case _ =>
  }

  function ParamScope(n: nat): seq<Declared> {
    if n == 0 then [] else ParamScope(n - 1) + [Declared(ParamName(n - 1), Some(n - 1))]
  }

  lemma {:induction false} ParamScopeFinds(n: nat, k: nat)
    requires k < n
    ensures Innermost(ParamScope(n), ParamName(k)) == Some(k)
    decreases n
  {
    InnermostPush(ParamScope(n - 1), Declared(ParamName(n - 1), Some(n - 1)), ParamName(k));
    if k < n - 1 {
      ParamScopeFinds(n - 1, k);
      assert Digits(k) != Digits(n - 1);
      assert ParamName(k)[6..] == Digits(k) && ParamName(n - 1)[6..] == Digits(n - 1);
    }
  }

  /** The emitted names denote the slots they were emitted for, all of them, exactly when no slot is
      referred to from where its name is taken. */
  lemma NamesExact(body: Expr, n: nat)
    requires Translate(body, ParamNames(n)).Some?
    ensures Readback(Translate(body, ParamNames(n)).value, ParamScope(n), n) == Some(body)
       <==> NoCapture(body, ParamNames(n), AllSlots(n))
  {
    forall k: nat | k < n ensures k in AllSlots(n) <==> Innermost(ParamScope(n), ParamNames(n)[k]) == Some(k) {
      ParamScopeFinds(n, k);
    }
    ReadbackExact(body, ParamNames(n), AllSlots(n), ParamScope(n));
  }

  /** No binder has the name of one around it, `outer` being the names around `e`. */
  predicate DistinctBinders(e: Expr, outer: set<string>)
    decreases e
  {
    match e
    case Prim(op, args) => IsPair(args) ==> DistinctBinders(args.head, outer) && DistinctBinders(args.tail.head, outer)
    case Let(name, val, body) =>
      name !in outer && DistinctBinders(val, outer + {name}) && DistinctBinders(body, outer + {name})
    case If(cond, thn, els) => DistinctBinders(cond, outer) && DistinctBinders(thn, outer) && DistinctBinders(els, outer)
    case _ => true
  }

  /** Distinct names for nested binders are enough. */
  lemma {:induction false} DistinctNoCapture(e: Expr, names: seq<string>, visible: set<nat>, outer: set<string>)
    requires DistinctBinders(e, outer)
    requires forall k | 0 <= k < |names| :: k in visible
    requires forall k, x | 0 <= k < |names| && x !in outer :: names[k] != LocalName(x)
    ensures NoCapture(e, names, visible)
    decreases e
  {
    match e
    case Prim(op, args) =>
      if IsPair(args) {
        DistinctNoCapture(args.head, names, visible, outer);
        DistinctNoCapture(args.tail.head, names, visible, outer);
      }
    case Let(name, val, body) =>
      var local := LocalName(name);
      var left := Unshadowed(names, visible, local);
      forall x | x !in outer + {name} ensures LocalName(x) != local {
        assert LocalName(x)[6..] == x && local[6..] == name;
      }
      DistinctNoCapture(val, names, left, outer + {name});
      DistinctNoCapture(body, names + [local], left + {|names|}, outer + {name});
    case If(cond, thn, els) =>
      DistinctNoCapture(cond, names, visible, outer);
      DistinctNoCapture(thn, names, visible, outer);
      DistinctNoCapture(els, names, visible, outer);
    case _ =>
  }

  lemma DistinctKernel(body: Expr, input: int)
    requires Translate(body, ParamNames(1)).Some? && DistinctBinders(body, {})
    ensures CEval(Translate(body, ParamNames(1)).value, map[ParamName(0) := Some(input)]) == Eval(body, [input])
  {
    forall x ensures ParamName(0) != LocalName(x) { assert ParamName(0)[0] == 'p' && LocalName(x)[0] == 'l'; }
    DistinctNoCapture(body, ParamNames(1), AllSlots(1), {});
    KernelCorrect(body, input);
  }

  /** A binder that shadows another and reads it in its value loses the value. */
  lemma ShadowingLoses(input: int)
    ensures var one := Integer(1);
      var inner := Let("x", Prim(Binary(Add), Cons(DeBruijn(0), Cons(one, Nil))), DeBruijn(0));
      var body := Let("x", one, inner);
      && Eval(body, [input]) == Some(2)
      && Translate(body, ParamNames(1)).Some?
      && CEval(Translate(body, ParamNames(1)).value, map[ParamName(0) := Some(input)]) == None
  {
    var one, names := Integer(1), ParamNames(1);
    var sum := Prim(Binary(Add), Cons(DeBruijn(0), Cons(one, Nil)));
    var inner := Let("x", sum, DeBruijn(0));
    var x := LocalName("x");
    assert IsPair(sum.args);
    assert Eval(sum, [input, 1]) == Some(2);
    assert [input] + [1] == [input, 1];
    assert [input, 1] + [2] == [input, 1, 2];
    assert Eval(inner, [input, 1]) == Some(2);
    var s := Translate(sum, names + [x]);
    assert s == Some(Operation(Add, Variable(x), Number(1)));
    assert Translate(inner, names + [x]) == Some(Block(x, s.value, Variable(x)));
    var env := map[ParamName(0) := Some(input)];
    assert CEval(s.value, env[x := Some(1)][x := None]) == None;
  }

  // ----- The translator itself -----

  class Translator {
    var stackNames: seq<string>

    constructor (params: nat)
      ensures stackNames == ParamNames(params)
    {
      stackNames := ParamNames(params);
    }

    method TranslateExpr(e: Expr) returns (r: Option<CExpr>)
      modifies this
      ensures r == Translate(e, old(stackNames))
      ensures r.Some? ==> stackNames == old(stackNames)
      decreases e
    {
      match e
      case Integer(value) => return Some(Number(value));
      case DeBruijn(idx) =>
        if idx >= |stackNames| { return None; }
        return Some(Variable(stackNames[|stackNames| - 1 - idx]));
      case Prim(op, args) =>
        if !op.Binary? || !IsPair(args) { return None; }
        var l := TranslateExpr(args.head);
        if l.None? { return None; }
        var r' := TranslateExpr(args.tail.head);
        if r'.None? { return None; }
        return if Supported(op.op) then Some(Operation(op.op, l.value, r'.value)) else None;
      case Let(name, val, body) =>
        var v := TranslateExpr(val);
        if v.None? { return None; }
        var localName := LocalName(name);
        stackNames := stackNames + [localName];
        var b := TranslateExpr(body);
        if b.None? { return None; }
        stackNames := stackNames[..|stackNames| - 1];
        return Some(Block(localName, v.value, b.value));
      case If(cond, thn, els) =>
        var c := TranslateExpr(cond);
        if c.None? { return None; }
        var t := TranslateExpr(thn);
        if t.None? { return None; }
        var f := TranslateExpr(els);
        if f.None? { return None; }
        return Some(Conditional(c.value, t.value, f.value));
      case _ => return None;
    }
  }
}
