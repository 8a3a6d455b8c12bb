/** The pointer inference of a module (`src/compiler/codegen/symbol.rs`, with `returns_ptr_with_stack`
    of `src/compiler/analysis/mod.rs`). */
module PtrInference {
  import opened Ast
  import opened Wrappers

  /** How the module names functions: `mangle_name` and `resolve_func_name`; and the table of names and
      suffixes of functions known to return pointers. */
  datatype Naming = Naming(mangle: string -> string, resolve: string -> string, known: string -> bool)

  /** The flags of the functions: whether each returns a pointer, and which parameters are pointers. */
  datatype Env = Env(rets: map<string, bool>, params: map<string, seq<bool>>)

  /** The flags of a body: its stack, and the parameters at the bottom of the stack. */
  datatype Flags = Flags(stack: seq<bool>, params: seq<bool>)

  datatype Definition = Definition(name: string, arity: nat, body: Expr)

  // ----- Which expressions are pointers -----

  function PrimReturnsPtr(op: PrimOp): bool {
    match op
    case Cat | SubStr | Read | Str | Split | OtelEmit | Env | MoneyStr | TimeZone | FileOpen | HttpClient | HttpHeader => true
    case _ => false
  }

  /** `returns_ptr_with_stack` */
  function ReturnsPtr(e: Expr, stack: seq<bool>, rets: map<string, bool>, names: Naming): bool
    decreases e
  {
    match e
    case Text(_) | New(_, _) | Unpack(_, _) | Map(_, _, _) | Filter(_, _) | Pack(_) => true
    case Prim(op, args) =>
      if op.HttpServer? then args.Cons? && args.head.Integer? && 0 <= args.head.value <= 3
      else if op.Seq? then args.Cons? && args.tail.Cons? && ReturnsPtr(args.tail.head, stack, rets, names)
      else PrimReturnsPtr(op)
    case Metadata(_, _, target) => ReturnsPtr(target, stack, rets, names)
    case Let(_, val, body) => ReturnsPtr(body, stack + [ReturnsPtr(val, stack, rets, names)], rets, names)
    case Move(inner) => ReturnsPtr(inner, stack, rets, names)
    case Borrow(inner) => ReturnsPtr(inner, stack, rets, names)
    case MutBorrow(inner) => ReturnsPtr(inner, stack, rets, names)
    case Trap(attempt, fallback) => ReturnsPtr(attempt, stack, rets, names) || ReturnsPtr(fallback, stack, rets, names)
    case If(_, thn, els) => ReturnsPtr(thn, stack, rets, names) || ReturnsPtr(els, stack, rets, names)
    case Set(_, _, _, val) => ReturnsPtr(val, stack, rets, names)
    case DeBruijn(idx) => idx < |stack| && stack[|stack| - 1 - idx]
    case Apply(func, _) => func.Identifier? && (names.known(func.name) || (func.name in rets && rets[func.name]))
    case _ => false
  }

  // ----- What a body says about its parameters -----

  /** `mark_as_ptr` */
  function Mark(e: Expr, f: Flags): Flags {
    match e
    case DeBruijn(idx) =>
      if idx < |f.stack| then
        var slot := |f.stack| - 1 - idx;
        Flags(f.stack[slot := true], if slot < |f.params| then f.params[slot := true] else f.params)
      else f
    case Move(inner) => Mark(inner, f)
    case Borrow(inner) => Mark(inner, f)
    case MutBorrow(inner) => Mark(inner, f)
    case _ => f
  }

  /** Marks the first `n` of the operands. */
  function MarkFirst(n: nat, args: Exprs, f: Flags): Flags {
    if n == 0 || args.Nil? then f else MarkFirst(n - 1, args.tail, Mark(args.head, f))
  }

  /** Marks the operands for which the callee wants pointers. */
  function MarkWanted(args: Exprs, wanted: seq<bool>, f: Flags): Flags {
    if args.Nil? || wanted == [] then f
    else MarkWanted(args.tail, wanted[1..], if wanted[0] then Mark(args.head, f) else f)
  }

  /** How many leading operands must be pointers; no value for the operators that are passed over. */
  function Demands(op: PrimOp): Option<nat> {
    match op
    case Seq => Some(0)
    case SubStr | Len => Some(1)
    case Cat | Loc | Reg | Split | Write | FileOpen => Some(2)
    case HttpClient => Some(3)
    case _ => None
  }

  function Wanted(callee: string, env: Env, names: Naming): seq<bool> {
    var resolved := names.resolve(callee);
    if resolved in env.params then env.params[resolved]
    else if callee in env.params then env.params[callee]
    else []
  }

  function MarkCall(callee: string, args: Exprs, f: Flags, env: Env, names: Naming): Flags {
    var resolved := names.resolve(callee);
    if resolved == "verify" || resolved == "crypto_verify" then if Length(args) >= 3 then MarkFirst(3, args, f) else f
    else if resolved == "sign" || resolved == "crypto_sign" then if Length(args) >= 2 then MarkFirst(2, args, f) else f
    else MarkWanted(args, Wanted(callee, env, names), f)
  }

  /** `infer_constraints` */
  function Infer(e: Expr, f: Flags, env: Env, names: Naming): (g: Flags)
    ensures |g.stack| == |f.stack| && |g.params| == |f.params|
    decreases e
  {
    match e
    case Let(_, val, body) =>
      var f1 := Infer(val, f, env, names);
      var pushed := f1.(stack := f1.stack + [ReturnsPtr(val, f1.stack, env.rets, names)]);
      var f2 := Infer(body, pushed, env, names);
      f2.(stack := f2.stack[..|f2.stack| - 1])
    case Prim(op, args) =>
      if op.HttpServer? then
        if args.Cons? && args.tail.Cons? then
          MarkedLength(args.tail.head, f);
          Infer(args.tail.head, Mark(args.tail.head, f), env, names)
        else f
      else if Demands(op).Some? then
        MarkFirstLength(Demands(op).value, args, f);
        InferAll(args, MarkFirst(Demands(op).value, args, f), env, names)
      else f
    case If(cond, thn, els) => Infer(els, Infer(thn, Infer(cond, f, env, names), env, names), env, names)
    case Move(inner) => Infer(inner, f, env, names)
    case Borrow(inner) => Infer(inner, f, env, names)
    case MutBorrow(inner) => Infer(inner, f, env, names)
    case Trap(attempt, fallback) => Infer(fallback, Infer(attempt, f, env, names), env, names)
    case Apply(func, args) =>
      var f1 := InferAll(args, Infer(func, f, env, names), env, names);
      if func.Identifier? then MarkCallLength(func.name, args, f1, env, names); MarkCall(func.name, args, f1, env, names) else f1
    case Get(inst, _, index) => MarkedLength(inst, f); Infer(index, Infer(inst, Mark(inst, f), env, names), env, names)
    case Set(inst, _, index, val) =>
      MarkedLength(inst, f);
      Infer(val, Infer(index, Infer(inst, Mark(inst, f), env, names), env, names), env, names)
    case Unpack(json, _) => MarkedLength(json, f); Infer(json, Mark(json, f), env, names)
    case Pack(inst) => MarkedLength(inst, f); Infer(inst, Mark(inst, f), env, names)
    case Map(inst, _, func) => MarkedLength(inst, f); Infer(func, Infer(inst, Mark(inst, f), env, names), env, names)
    case Filter(inst, func) => MarkedLength(inst, f); Infer(func, Infer(inst, Mark(inst, f), env, names), env, names)
    case _ => f
  }

  function InferAll(es: Exprs, f: Flags, env: Env, names: Naming): (g: Flags)
    ensures |g.stack| == |f.stack| && |g.params| == |f.params|
    decreases es
  {
    match es
    case Nil => f
    case Cons(head, tail) => InferAll(tail, Infer(head, f, env, names), env, names)
  }

  lemma MarkedLength(e: Expr, f: Flags)
    ensures |Mark(e, f).stack| == |f.stack| && |Mark(e, f).params| == |f.params|
  {
  }

  lemma MarkFirstLength(n: nat, args: Exprs, f: Flags)
    ensures var g := MarkFirst(n, args, f); |g.stack| == |f.stack| && |g.params| == |f.params|
  {
    if n > 0 && args.Cons? {
      MarkedLength(args.head, f);
    }
  }

  lemma MarkCallLength(callee: string, args: Exprs, f: Flags, env: Env, names: Naming)
    ensures var g := MarkCall(callee, args, f, env, names); |g.stack| == |f.stack| && |g.params| == |f.params|
  {
    MarkFirstLength(3, args, f);
    MarkFirstLength(2, args, f);
    MarkWantedLength(args, Wanted(callee, env, names), f);
  }

  lemma MarkWantedLength(args: Exprs, wanted: seq<bool>, f: Flags)
    ensures var g := MarkWanted(args, wanted, f); |g.stack| == |f.stack| && |g.params| == |f.params|
  {
    if args.Cons? && wanted != [] {
      MarkedLength(args.head, f);
    }
  }

  // ----- The order of flags -----

  predicate Below(a: seq<bool>, b: seq<bool>) {
    |a| == |b| && forall i | 0 <= i < |a| && a[i] :: b[i]
  }

  predicate FlagsBelow(f: Flags, g: Flags) {
    Below(f.stack, g.stack) && Below(f.params, g.params)
  }

  predicate EnvBelow(a: Env, b: Env) {
    && a.rets.Keys == b.rets.Keys && a.params.Keys == b.params.Keys
    && (forall k | k in a.rets :: a.rets[k] ==> b.rets[k])
    && (forall k | k in a.params :: Below(a.params[k], b.params[k]))
  }

  lemma EnvBelowTransitive(a: Env, b: Env, c: Env)
    requires EnvBelow(a, b) && EnvBelow(b, c)
    ensures EnvBelow(a, c)
  {
    forall k | k in a.params ensures Below(a.params[k], c.params[k]) {
      assert Below(a.params[k], b.params[k]) && Below(b.params[k], c.params[k]);
    }
  }

  lemma {:induction false} ReturnsMonotone(e: Expr, s: seq<bool>, t: seq<bool>, a: Env, b: Env, names: Naming)
    requires Below(s, t) && EnvBelow(a, b)
    ensures ReturnsPtr(e, s, a.rets, names) ==> ReturnsPtr(e, t, b.rets, names)
    decreases e
  {
    match e
    case Prim(op, args) =>
      if op.Seq? && args.Cons? && args.tail.Cons? { ReturnsMonotone(args.tail.head, s, t, a, b, names); }
    case Metadata(_, _, target) => ReturnsMonotone(target, s, t, a, b, names);
    case Let(_, val, body) =>
      ReturnsMonotone(val, s, t, a, b, names);
      var s', t' := s + [ReturnsPtr(val, s, a.rets, names)], t + [ReturnsPtr(val, t, b.rets, names)];
      assert Below(s', t');
      ReturnsMonotone(body, s', t', a, b, names);
    case Move(inner) => ReturnsMonotone(inner, s, t, a, b, names);
    case Borrow(inner) => ReturnsMonotone(inner, s, t, a, b, names);
    case MutBorrow(inner) => ReturnsMonotone(inner, s, t, a, b, names);
    case Trap(attempt, fallback) =>
      ReturnsMonotone(attempt, s, t, a, b, names);
      ReturnsMonotone(fallback, s, t, a, b, names);
    case If(_, thn, els) =>
      ReturnsMonotone(thn, s, t, a, b, names);
      ReturnsMonotone(els, s, t, a, b, names);
    case Set(_, _, _, val) => ReturnsMonotone(val, s, t, a, b, names);
    case _ =>
  }

  lemma {:induction false} MarkOrdered(e: Expr, f: Flags, g: Flags)
    requires FlagsBelow(f, g)
    ensures FlagsBelow(f, Mark(e, f)) && FlagsBelow(Mark(e, f), Mark(e, g))
    decreases e
  {
    match e
    case Move(inner) => MarkOrdered(inner, f, g);
    case Borrow(inner) => MarkOrdered(inner, f, g);
    case MutBorrow(inner) => MarkOrdered(inner, f, g);
    case _ =>
  }

  lemma FlagsBelowTransitive(f: Flags, g: Flags, h: Flags)
    requires FlagsBelow(f, g) && FlagsBelow(g, h)
    ensures FlagsBelow(f, h)
  {
  }

  lemma {:induction false} MarkFirstOrdered(n: nat, args: Exprs, f: Flags, g: Flags)
    requires FlagsBelow(f, g)
    ensures FlagsBelow(f, MarkFirst(n, args, f)) && FlagsBelow(MarkFirst(n, args, f), MarkFirst(n, args, g))
    decreases n
  {
    if n > 0 && args.Cons? {
      MarkOrdered(args.head, f, g);
      MarkFirstOrdered(n - 1, args.tail, Mark(args.head, f), Mark(args.head, g));
      FlagsBelowTransitive(f, Mark(args.head, f), MarkFirst(n, args, f));
    }
  }

  lemma {:induction false} MarkWantedOrdered(args: Exprs, v: seq<bool>, w: seq<bool>, f: Flags, g: Flags)
    requires FlagsBelow(f, g) && Below(v, w)
    ensures FlagsBelow(f, MarkWanted(args, v, f)) && FlagsBelow(MarkWanted(args, v, f), MarkWanted(args, w, g))
    decreases |v|
  {
    if args.Cons? && v != [] {
      MarkOrdered(args.head, f, g);
      MarkOrdered(args.head, g, g);
      var f', g' := if v[0] then Mark(args.head, f) else f, if w[0] then Mark(args.head, g) else g;
      FlagsBelowTransitive(f, g, Mark(args.head, g));
      MarkWantedOrdered(args.tail, v[1..], w[1..], f', g');
      FlagsBelowTransitive(f, f', MarkWanted(args, v, f));
    }
  }

  lemma MarkCallOrdered(callee: string, args: Exprs, f: Flags, g: Flags, a: Env, b: Env, names: Naming)
    requires FlagsBelow(f, g) && EnvBelow(a, b)
    ensures FlagsBelow(f, MarkCall(callee, args, f, a, names))
    ensures FlagsBelow(MarkCall(callee, args, f, a, names), MarkCall(callee, args, g, b, names))
  {
    MarkFirstOrdered(3, args, f, g);
    MarkFirstOrdered(2, args, f, g);
    MarkWantedOrdered(args, Wanted(callee, a, names), Wanted(callee, b, names), f, g);
  }

  /** Inference only adds flags, and adds no fewer where there are more to begin with. */
  predicate Ordered(e: Expr, f: Flags, g: Flags, a: Env, b: Env, names: Naming) {
    FlagsBelow(f, Infer(e, f, a, names)) && FlagsBelow(Infer(e, f, a, names), Infer(e, g, b, names))
  }

  predicate Entry(f: Flags, g: Flags, a: Env, b: Env) {
    FlagsBelow(f, g) && EnvBelow(a, b)
  }

  lemma {:induction false} InferOrdered(e: Expr, f: Flags, g: Flags, a: Env, b: Env, names: Naming)
    requires Entry(f, g, a, b)
    ensures Ordered(e, f, g, a, b, names)
    decreases e, 3
  {
    hide EnvBelow, ReturnsPtr, Demands;
    match e
    case Let(_, _, _) => LetOrdered(e, f, g, a, b, names);
    case Prim(_, _) => PrimOrdered(e, f, g, a, b, names);
    case If(cond, thn, els) => ThreeOrdered(e, cond, thn, els, f, g, a, b, names);
    case Move(inner) => InferOrdered(inner, f, g, a, b, names);
    case Borrow(inner) => InferOrdered(inner, f, g, a, b, names);
    case MutBorrow(inner) => InferOrdered(inner, f, g, a, b, names);
    case Trap(attempt, fallback) => TwoOrdered(e, attempt, fallback, f, g, a, b, names);
    case Apply(_, _) => ApplyOrdered(e, f, g, a, b, names);
    case Get(_, _, _) => FieldOrdered(e, f, g, a, b, names);
    case Set(_, _, _, _) => FieldOrdered(e, f, g, a, b, names);
    case Unpack(json, _) => MarkedOrdered(json, f, g, a, b, names);
    case Pack(inst) => MarkedOrdered(inst, f, g, a, b, names);
    case Map(_, _, _) => FieldOrdered(e, f, g, a, b, names);
    case Filter(_, _) => FieldOrdered(e, f, g, a, b, names);
    case _ =>
  }

  /** The expressions that use an instance of a shape. */
  lemma {:induction false} FieldOrdered(e: Expr, f: Flags, g: Flags, a: Env, b: Env, names: Naming)
    requires (e.Get? || e.Set? || e.Map? || e.Filter?) && Entry(f, g, a, b)
    ensures Ordered(e, f, g, a, b, names)
    decreases e, 2
  {
    hide EnvBelow, FlagsBelow, Mark, ReturnsPtr, Demands;
    MarkOrdered(e.inst, f, g);
    var f1, g1 := Mark(e.inst, f), Mark(e.inst, g);
    if e.Get? {
      TwoOrdered(e, e.inst, e.index, f1, g1, a, b, names);
    } else if e.Set? {
      ThreeOrdered(e, e.inst, e.index, e.val, f1, g1, a, b, names);
    } else if e.Map? {
      TwoOrdered(e, e.inst, e.func, f1, g1, a, b, names);
    } else {
      TwoOrdered(e, e.inst, e.func, f1, g1, a, b, names);
    }
    FlagsBelowTransitive(f, f1, Infer(e, f, a, names));
  }

  lemma {:induction false} PrimOrdered(e: Expr, f: Flags, g: Flags, a: Env, b: Env, names: Naming)
    requires e.Prim? && Entry(f, g, a, b)
    ensures Ordered(e, f, g, a, b, names)
    decreases e, 1
  {
    var Prim(op, args) := e;
    if op.HttpServer? {
      if args.Cons? && args.tail.Cons? { MarkedOrdered(args.tail.head, f, g, a, b, names); }
    } else if Demands(op).Some? {
      var n := Demands(op).value;
      MarkFirstOrdered(n, args, f, g);
      var f1, g1 := MarkFirst(n, args, f), MarkFirst(n, args, g);
      AllOrdered(args, f1, g1, a, b, names);
      FlagsBelowTransitive(f, f1, InferAll(args, f1, a, names));
    }
  }

  lemma {:induction false} ApplyOrdered(e: Expr, f: Flags, g: Flags, a: Env, b: Env, names: Naming)
    requires e.Apply? && Entry(f, g, a, b)
    ensures Ordered(e, f, g, a, b, names)
    decreases e, 1
  {
    var Apply(func, args) := e;
    InferOrdered(func, f, g, a, b, names);
    var f1, g1 := Infer(func, f, a, names), Infer(func, g, b, names);
    AllOrdered(args, f1, g1, a, b, names);
    var f2, g2 := InferAll(args, f1, a, names), InferAll(args, g1, b, names);
    FlagsBelowTransitive(f, f1, f2);
    if func.Identifier? {
      MarkCallOrdered(func.name, args, f2, g2, a, b, names);
      FlagsBelowTransitive(f, f2, MarkCall(func.name, args, f2, a, names));
    }
  }

  lemma {:induction false} MarkedOrdered(e: Expr, f: Flags, g: Flags, a: Env, b: Env, names: Naming)
    requires Entry(f, g, a, b)
    ensures FlagsBelow(f, Infer(e, Mark(e, f), a, names))
    ensures FlagsBelow(Infer(e, Mark(e, f), a, names), Infer(e, Mark(e, g), b, names))
    decreases e, 4
  {
    hide Infer, Mark;
    MarkOrdered(e, f, g);
    InferOrdered(e, Mark(e, f), Mark(e, g), a, b, names);
    FlagsBelowTransitive(f, Mark(e, f), Infer(e, Mark(e, f), a, names));
  }

  lemma {:induction false} TwoOrdered(whole: Expr, l: Expr, r: Expr, f: Flags, g: Flags, a: Env, b: Env, names: Naming)
    requires Entry(f, g, a, b) && l < whole && r < whole
    ensures FlagsBelow(f, Infer(r, Infer(l, f, a, names), a, names))
    ensures FlagsBelow(Infer(r, Infer(l, f, a, names), a, names), Infer(r, Infer(l, g, b, names), b, names))
    decreases whole, 0
  {
    hide Infer;
    InferOrdered(l, f, g, a, b, names);
    var f1, g1 := Infer(l, f, a, names), Infer(l, g, b, names);
    InferOrdered(r, f1, g1, a, b, names);
    FlagsBelowTransitive(f, f1, Infer(r, f1, a, names));
  }

  lemma {:induction false} ThreeOrdered(whole: Expr, x: Expr, y: Expr, z: Expr, f: Flags, g: Flags, a: Env, b: Env, names: Naming)
    requires Entry(f, g, a, b) && x < whole && y < whole && z < whole
    ensures FlagsBelow(f, Infer(z, Infer(y, Infer(x, f, a, names), a, names), a, names))
    ensures FlagsBelow(Infer(z, Infer(y, Infer(x, f, a, names), a, names), a, names),
                       Infer(z, Infer(y, Infer(x, g, b, names), b, names), b, names))
    decreases whole, 1
  {
    hide Infer;
    TwoOrdered(whole, x, y, f, g, a, b, names);
    var f1, g1 := Infer(y, Infer(x, f, a, names), a, names), Infer(y, Infer(x, g, b, names), b, names);
    InferOrdered(z, f1, g1, a, b, names);
    FlagsBelowTransitive(f, f1, Infer(z, f1, a, names));
  }

  lemma {:induction false} LetOrdered(e: Expr, f: Flags, g: Flags, a: Env, b: Env, names: Naming)
    requires e.Let? && Entry(f, g, a, b)
    ensures Ordered(e, f, g, a, b, names)
    decreases e, 0
  {
    var Let(_, val, body) := e;
    InferOrdered(val, f, g, a, b, names);
    var f1, g1 := Infer(val, f, a, names), Infer(val, g, b, names);
    ReturnsMonotone(val, f1.stack, g1.stack, a, b, names);
    var f2 := f1.(stack := f1.stack + [ReturnsPtr(val, f1.stack, a.rets, names)]);
    var g2 := g1.(stack := g1.stack + [ReturnsPtr(val, g1.stack, b.rets, names)]);
    InferOrdered(body, f2, g2, a, b, names);
  }

  lemma {:induction false} AllOrdered(es: Exprs, f: Flags, g: Flags, a: Env, b: Env, names: Naming)
    requires Entry(f, g, a, b)
    ensures FlagsBelow(f, InferAll(es, f, a, names)) && FlagsBelow(InferAll(es, f, a, names), InferAll(es, g, b, names))
    decreases es, 0
  {
    hide Infer;
    match es
    case Nil =>
    case Cons(head, tail) =>
      InferOrdered(head, f, g, a, b, names);
      var f1, g1 := Infer(head, f, a, names), Infer(head, g, b, names);
      AllOrdered(tail, f1, g1, a, b, names);
      FlagsBelowTransitive(f, f1, InferAll(es, f, a, names));
  }

  // ----- One function, and all functions of the module -----

  function Definitions(es: seq<Expr>): seq<Definition> {
    if es == [] then []
    else
      var inner := if es[0].Metadata? then es[0].target else es[0];
      (if inner.Define? then [Definition(inner.name, |inner.params|, inner.body)] else []) + Definitions(es[1..])
  }

  /** The names under which a function's flags are kept. */
  function Keys(d: Definition, names: Naming): set<string> {
    {d.name, names.mangle(d.name), names.resolve(d.name)}
  }

  /** Functions of different names share no entry of the tables; a name may be defined more than once. */
  predicate Coherent(defs: seq<Definition>, names: Naming) {
    forall i, j | 0 <= i < j < |defs| :: defs[i].name == defs[j].name || Keys(defs[i], names) !! Keys(defs[j], names)
  }

  function SetParams(env: Env, d: Definition, v: seq<bool>, names: Naming): Env {
    env.(params := env.params[d.name := v][names.mangle(d.name) := v][names.resolve(d.name) := v])
  }

  function SetReturns(env: Env, d: Definition, v: bool, names: Naming): Env {
    env.(rets := env.rets[d.name := v][names.mangle(d.name) := v][names.resolve(d.name) := v])
  }

  function AllFalse(n: nat): seq<bool> {
    seq(n, _ => false)
  }

  /** The first flags: nothing is a pointer. */
  function Initial(defs: seq<Definition>, env: Env, names: Naming): Env {
    if defs == [] then env
    else Initial(defs[1..], SetParams(SetReturns(env, defs[0], false, names), defs[0], AllFalse(defs[0].arity), names), names)
  }

  /** All names of a function have the same flags. */
  predicate Kept(d: Definition, env: Env, names: Naming) {
    var m, r := names.mangle(d.name), names.resolve(d.name);
    && d.name in env.params && m in env.params && r in env.params
    && d.name in env.rets && m in env.rets && r in env.rets
    && env.params[m] == env.params[d.name] == env.params[r]
    && env.rets[m] == env.rets[d.name] == env.rets[r]
  }

  predicate AllKept(defs: seq<Definition>, env: Env, names: Naming) {
    forall i | 0 <= i < |defs| :: Kept(defs[i], env, names)
  }

  function Inferred(d: Definition, env: Env, names: Naming): seq<bool>
    requires d.name in env.params
  {
    Infer(d.body, Flags(env.params[d.name], env.params[d.name]), env, names).params
  }

  function StepParams(d: Definition, env: Env, names: Naming): Env
    requires Kept(d, env, names)
  {
    var found := Inferred(d, env, names);
    if found != env.params[d.name] then SetParams(env, d, found, names) else env
  }

  function StepReturns(d: Definition, env: Env, names: Naming): Env
    requires Kept(d, env, names)
  {
    if ReturnsPtr(d.body, env.params[d.name], env.rets, names) && !env.rets[d.name] then SetReturns(env, d, true, names) else env
  }

  /** What one look at a function does to the flags. */
  function Step(d: Definition, env: Env, names: Naming): Env
    requires Kept(d, env, names)
  {
    StepReturns(d, StepParams(d, env, names), names)
  }

  /** The flags agree with what every body says. */
  predicate Solution(defs: seq<Definition>, env: Env, names: Naming) {
    AllKept(defs, env, names) && forall i | 0 <= i < |defs| :: Satisfied(defs[i], env, names)
  }

  predicate Satisfied(d: Definition, env: Env, names: Naming) {
    && Kept(d, env, names)
    && Inferred(d, env, names) == env.params[d.name]
    && (ReturnsPtr(d.body, env.params[d.name], env.rets, names) ==> env.rets[d.name])
  }

  lemma EnvBelowSelf(env: Env)
    ensures EnvBelow(env, env)
  {
  }

  lemma SetParamsOrdered(d: Definition, env: Env, v: seq<bool>, names: Naming)
    requires Kept(d, env, names) && Below(env.params[d.name], v)
    ensures EnvBelow(env, SetParams(env, d, v, names)) && Kept(d, SetParams(env, d, v, names), names)
  {
  }

  lemma SetParamsUnder(d: Definition, env: Env, v: seq<bool>, s: Env, names: Naming)
    requires Kept(d, env, names) && Kept(d, s, names) && EnvBelow(env, s) && Below(v, s.params[d.name])
    ensures EnvBelow(SetParams(env, d, v, names), s)
  {
  }

  /** Looking at a function only adds flags. */
  lemma StepGrows(d: Definition, env: Env, names: Naming)
    requires Kept(d, env, names)
    ensures EnvBelow(env, Step(d, env, names)) && Kept(d, Step(d, env, names), names)
  {
    hide Infer, ReturnsPtr;
    EnvBelowSelf(env);
    var f := Flags(env.params[d.name], env.params[d.name]);
    InferOrdered(d.body, f, f, env, env, names);
    SetParamsOrdered(d, env, Inferred(d, env, names), names);
    EnvBelowTransitive(env, StepParams(d, env, names), Step(d, env, names)) by {
      EnvBelowSelf(StepParams(d, env, names));
    }
  }

  /** It does not go past any solution. */
  lemma StepBelow(d: Definition, env: Env, s: Env, names: Naming)
    requires Kept(d, env, names) && Satisfied(d, s, names) && EnvBelow(env, s)
    ensures EnvBelow(Step(d, env, names), s)
  {
    hide Infer, ReturnsPtr;
    var f, g := Flags(env.params[d.name], env.params[d.name]), Flags(s.params[d.name], s.params[d.name]);
    InferOrdered(d.body, f, g, env, s, names);
    assert Below(Inferred(d, env, names), s.params[d.name]);
    SetParamsUnder(d, env, Inferred(d, env, names), s, names);
    var next := StepParams(d, env, names);
    ReturnsMonotone(d.body, next.params[d.name], s.params[d.name], next, s, names);
  }

  /** It leaves the other functions alone. */
  lemma StepKeeps(defs: seq<Definition>, i: nat, env: Env, names: Naming)
    requires i < |defs| && Coherent(defs, names) && AllKept(defs, env, names)
    ensures AllKept(defs, Step(defs[i], env, names), names)
  {
    hide Infer, ReturnsPtr;
    StepGrows(defs[i], env, names);
    var next := Step(defs[i], env, names);
    forall j | 0 <= j < |defs| ensures Kept(defs[j], next, names) {
      assert Kept(defs[j], env, names);
      if defs[j].name != defs[i].name {
        assert Keys(defs[i], names) !! Keys(defs[j], names);
        assert forall k | k in Keys(defs[j], names) :: k !in Keys(defs[i], names);
      }
    }
  }

  /** The functions from the `i`th on, one after the other. */
  function Round(defs: seq<Definition>, i: nat, env: Env, names: Naming): Env
    requires i <= |defs| && Coherent(defs, names) && AllKept(defs, env, names)
    decreases |defs| - i
  {
    if i == |defs| then env
    else
      assert Kept(defs[i], env, names);
      StepKeeps(defs, i, env, names);
      Round(defs, i + 1, Step(defs[i], env, names), names)
  }

  lemma {:induction false} RoundGrows(defs: seq<Definition>, i: nat, env: Env, names: Naming)
    requires i <= |defs| && Coherent(defs, names) && AllKept(defs, env, names)
    ensures EnvBelow(env, Round(defs, i, env, names)) && AllKept(defs, Round(defs, i, env, names), names)
    decreases |defs| - i
  {
    hide Step, Kept;
    if i == |defs| {
      EnvBelowSelf(env);
    } else {
      assert Kept(defs[i], env, names);
      StepKeeps(defs, i, env, names);
      StepGrows(defs[i], env, names);
      var next := Step(defs[i], env, names);
      RoundGrows(defs, i + 1, next, names);
      EnvBelowTransitive(env, next, Round(defs, i, env, names));
    }
  }

  lemma {:induction false} RoundBelow(defs: seq<Definition>, i: nat, env: Env, s: Env, names: Naming)
    requires i <= |defs| && Coherent(defs, names) && AllKept(defs, env, names)
    requires Solution(defs, s, names) && EnvBelow(env, s)
    ensures EnvBelow(Round(defs, i, env, names), s)
    decreases |defs| - i
  {
    hide Step, Kept, EnvBelow;
    if i < |defs| {
      assert Kept(defs[i], env, names) && Satisfied(defs[i], s, names);
      StepKeeps(defs, i, env, names);
      StepBelow(defs[i], env, s, names);
      RoundBelow(defs, i + 1, Step(defs[i], env, names), s, names);
    }
  }

  lemma EnvBelowAntisymmetric(a: Env, b: Env)
    requires EnvBelow(a, b) && EnvBelow(b, a)
    ensures a == b
  {
    forall k | k in a.params ensures a.params[k] == b.params[k] {
      assert Below(a.params[k], b.params[k]) && Below(b.params[k], a.params[k]);
    }
  }

  /** A round without a change has found a solution. */
  lemma {:induction false} StillRoundSolves(defs: seq<Definition>, i: nat, env: Env, names: Naming)
    requires i <= |defs| && Coherent(defs, names) && AllKept(defs, env, names)
    requires Round(defs, i, env, names) == env
    ensures forall j | i <= j < |defs| :: Step(defs[j], env, names) == env
    decreases |defs| - i
  {
    hide Step, Kept;
    if i < |defs| {
      assert Kept(defs[i], env, names);
      StepKeeps(defs, i, env, names);
      StepGrows(defs[i], env, names);
      var next := Step(defs[i], env, names);
      RoundGrows(defs, i + 1, next, names);
      EnvBelowAntisymmetric(env, next);
      StillRoundSolves(defs, i + 1, env, names);
    }
  }

  lemma StillStepSatisfies(d: Definition, env: Env, names: Naming)
    requires Kept(d, env, names) && Step(d, env, names) == env
    ensures Satisfied(d, env, names)
  {
    hide Infer, ReturnsPtr;
    assert StepParams(d, env, names).params[d.name] == Inferred(d, env, names);
  }

  lemma StillSolves(defs: seq<Definition>, env: Env, names: Naming)
    requires Coherent(defs, names) && AllKept(defs, env, names)
    requires Round(defs, 0, env, names) == env
    ensures Solution(defs, env, names)
  {
    hide Step, Kept, Satisfied;
    StillRoundSolves(defs, 0, env, names);
    forall i | 0 <= i < |defs| ensures Satisfied(defs[i], env, names) {
      assert Kept(defs[i], env, names);
      StillStepSatisfies(defs[i], env, names);
    }
  }

  // ----- How many rounds there can be -----

  function CountTrue(v: seq<bool>): (n: nat)
    ensures n <= |v|
  {
    if v == [] then 0 else (if v[0] then 1 else 0) + CountTrue(v[1..])
  }

  lemma {:induction false} CountBelow(v: seq<bool>, w: seq<bool>)
    requires Below(v, w)
    ensures CountTrue(v) <= CountTrue(w) && (v != w ==> CountTrue(v) < CountTrue(w))
    decreases |v|
  {
    if v != [] {
      assert Below(v[1..], w[1..]);
      CountBelow(v[1..], w[1..]);
      assert v == [v[0]] + v[1..] && w == [w[0]] + w[1..];
    }
  }

  /** The parameters and functions flagged so far, and all there are. */
  function Flagged(defs: seq<Definition>, env: Env, names: Naming): nat
    requires AllKept(defs, env, names)
  {
    if defs == [] then 0
    else
      assert Kept(defs[0], env, names);
      assert AllKept(defs[1..], env, names) by { TailKept(defs, env, names); }
      CountTrue(env.params[defs[0].name]) + (if env.rets[defs[0].name] then 1 else 0) + Flagged(defs[1..], env, names)
  }

  lemma TailKept(defs: seq<Definition>, env: Env, names: Naming)
    requires defs != [] && AllKept(defs, env, names)
    ensures AllKept(defs[1..], env, names)
  {
    forall i | 0 <= i < |defs[1..]| ensures Kept(defs[1..][i], env, names) { assert Kept(defs[i + 1], env, names); }
  }

  function Places(defs: seq<Definition>, env: Env, names: Naming): nat
    requires AllKept(defs, env, names)
  {
    if defs == [] then 0
    else
      assert Kept(defs[0], env, names);
      assert AllKept(defs[1..], env, names) by { TailKept(defs, env, names); }
      |env.params[defs[0].name]| + 1 + Places(defs[1..], env, names)
  }

  lemma {:induction false} FlaggedBound(defs: seq<Definition>, env: Env, names: Naming)
    requires AllKept(defs, env, names)
    ensures Flagged(defs, env, names) <= Places(defs, env, names)
    decreases |defs|
  {
    if defs != [] {
      assert Kept(defs[0], env, names);
      TailKept(defs, env, names);
      FlaggedBound(defs[1..], env, names);
    }
  }

  lemma {:induction false} PlacesKept(defs: seq<Definition>, a: Env, b: Env, names: Naming)
    requires AllKept(defs, a, names) && AllKept(defs, b, names) && EnvBelow(a, b)
    ensures Places(defs, a, names) == Places(defs, b, names)
    decreases |defs|
  {
    if defs != [] {
      assert Kept(defs[0], a, names) && Kept(defs[0], b, names);
      assert Below(a.params[defs[0].name], b.params[defs[0].name]);
      TailKept(defs, a, names);
      TailKept(defs, b, names);
      PlacesKept(defs[1..], a, b, names);
    }
  }

  /** Whether the flags of some function differ. */
  predicate Differ(defs: seq<Definition>, a: Env, b: Env, names: Naming)
    requires AllKept(defs, a, names) && AllKept(defs, b, names)
  {
    exists i :: 0 <= i < |defs| && Kept(defs[i], a, names) && Kept(defs[i], b, names)
      && (a.params[defs[i].name] != b.params[defs[i].name] || a.rets[defs[i].name] != b.rets[defs[i].name])
  }

  lemma {:induction false} FlaggedBelow(defs: seq<Definition>, a: Env, b: Env, names: Naming)
    requires AllKept(defs, a, names) && AllKept(defs, b, names) && EnvBelow(a, b)
    ensures Flagged(defs, a, names) <= Flagged(defs, b, names)
    ensures Differ(defs, a, b, names) ==> Flagged(defs, a, names) < Flagged(defs, b, names)
    decreases |defs|
  {
    if defs != [] {
      var d, rest := defs[0], defs[1..];
      assert Kept(d, a, names) && Kept(d, b, names);
      TailKept(defs, a, names);
      TailKept(defs, b, names);
      FlaggedBelow(rest, a, b, names);
      CountBelow(a.params[d.name], b.params[d.name]);
      if Differ(defs, a, b, names) && a.params[d.name] == b.params[d.name] && a.rets[d.name] == b.rets[d.name] {
        var i :| 0 <= i < |defs| && (Kept(defs[i], a, names) && Kept(defs[i], b, names)
          && (a.params[defs[i].name] != b.params[defs[i].name] || a.rets[defs[i].name] != b.rets[defs[i].name]));
        assert rest[i - 1] == defs[i];
        assert Differ(rest, a, b, names);
      }
    }
  }

  lemma StepDiffers(defs: seq<Definition>, i: nat, env: Env, names: Naming)
    requires i < |defs| && Coherent(defs, names) && AllKept(defs, env, names)
    requires Kept(defs[i], env, names) && Step(defs[i], env, names) != env
    ensures AllKept(defs, Step(defs[i], env, names), names) && Differ(defs, env, Step(defs[i], env, names), names)
  {
    hide Infer, ReturnsPtr;
    StepKeeps(defs, i, env, names);
    var d, next := defs[i], Step(defs[i], env, names);
    assert Kept(d, next, names);
    if Inferred(d, env, names) != env.params[d.name] {
      assert next.params[d.name] != env.params[d.name];
    } else {
      assert next.rets[d.name] && !env.rets[d.name];
    }
  }

  /** Every round with a change adds a flag. */
  lemma {:induction false} RoundCounts(defs: seq<Definition>, i: nat, env: Env, names: Naming)
    requires i <= |defs| && Coherent(defs, names) && AllKept(defs, env, names)
    ensures AllKept(defs, Round(defs, i, env, names), names)
    ensures Flagged(defs, env, names) <= Flagged(defs, Round(defs, i, env, names), names)
    ensures Round(defs, i, env, names) != env ==> Flagged(defs, env, names) < Flagged(defs, Round(defs, i, env, names), names)
    decreases |defs| - i
  {
    hide Step, Kept, Flagged, Differ, EnvBelow;
    if i < |defs| {
      assert Kept(defs[i], env, names);
      StepKeeps(defs, i, env, names);
      StepGrows(defs[i], env, names);
      var next := Step(defs[i], env, names);
      RoundCounts(defs, i + 1, next, names);
      FlaggedBelow(defs, env, next, names);
      if next != env {
        StepDiffers(defs, i, env, names);
      }
    }
  }

  lemma {:induction false} InitialUntouched(d: Definition, defs: seq<Definition>, env: Env, names: Naming)
    requires Kept(d, env, names) && forall i | 0 <= i < |defs| :: Keys(d, names) !! Keys(defs[i], names)
    ensures Kept(d, Initial(defs, env, names), names)
    decreases |defs|
  {
    if defs != [] {
      var next := SetParams(SetReturns(env, defs[0], false, names), defs[0], AllFalse(defs[0].arity), names);
      assert Keys(d, names) !! Keys(defs[0], names);
      assert forall k | k in Keys(d, names) :: k !in Keys(defs[0], names);
      forall i | 0 <= i < |defs[1..]| ensures Keys(d, names) !! Keys(defs[1..][i], names) { assert defs[1..][i] == defs[i + 1]; }
      InitialUntouched(d, defs[1..], next, names);
    }
  }

  lemma {:induction false} InitialKept(defs: seq<Definition>, env: Env, names: Naming)
    requires Coherent(defs, names)
    ensures AllKept(defs, Initial(defs, env, names), names)
    decreases |defs|
  {
    if defs != [] {
      var next := SetParams(SetReturns(env, defs[0], false, names), defs[0], AllFalse(defs[0].arity), names);
      TailCoherent(defs, names);
      InitialKept(defs[1..], next, names);
      if k :| 0 < k < |defs| && defs[k].name == defs[0].name {
        assert defs[1..][k - 1] == defs[k];
        assert Kept(defs[k], Initial(defs[1..], next, names), names);
      } else {
        forall i | 0 <= i < |defs[1..]| ensures Keys(defs[0], names) !! Keys(defs[1..][i], names) { assert defs[1..][i] == defs[i + 1]; }
        InitialUntouched(defs[0], defs[1..], next, names);
      }
      forall i | 0 <= i < |defs| ensures Kept(defs[i], Initial(defs, env, names), names) {
        assert i > 0 ==> defs[i] == defs[1..][i - 1];
      }
    }
  }

  lemma TailCoherent(defs: seq<Definition>, names: Naming)
    requires defs != [] && Coherent(defs, names)
    ensures Coherent(defs[1..], names)
  {
    forall i, j | 0 <= i < j < |defs[1..]|
      ensures defs[1..][i].name == defs[1..][j].name || Keys(defs[1..][i], names) !! Keys(defs[1..][j], names)
    {
      assert defs[i + 1].name == defs[j + 1].name || Keys(defs[i + 1], names) !! Keys(defs[j + 1], names);
    }
  }

  lemma {:induction false} AllCounted(v: seq<bool>)
    requires CountTrue(v) == |v|
    ensures forall i | 0 <= i < |v| :: v[i]
    decreases |v|
  {
    if v != [] {
      AllCounted(v[1..]);
      assert v == [v[0]] + v[1..];
    }
  }

  /** With every flag set there is nothing left to infer. */
  lemma {:induction false} FullSolves(defs: seq<Definition>, env: Env, names: Naming)
    requires AllKept(defs, env, names) && Flagged(defs, env, names) == Places(defs, env, names)
    ensures Solution(defs, env, names)
    decreases |defs|
  {
    hide Infer, ReturnsPtr;
    if defs != [] {
      var d := defs[0];
      assert Kept(d, env, names);
      TailKept(defs, env, names);
      FlaggedBound(defs[1..], env, names);
      FullSolves(defs[1..], env, names);
      var v := env.params[d.name];
      AllCounted(v);
      EnvBelowSelf(env);
      InferOrdered(d.body, Flags(v, v), Flags(v, v), env, env, names);
      assert Inferred(d, env, names) == v;
      forall i | 0 <= i < |defs| ensures Satisfied(defs[i], env, names) {
        if i > 0 { assert Satisfied(defs[1..][i - 1], env, names); }
      }
    }
  }

  // ----- All rounds -----

  const MAX_ROUNDS: nat := 100

  function Rounds(defs: seq<Definition>, env: Env, m: nat, names: Naming): (r: Env)
    requires Coherent(defs, names) && AllKept(defs, env, names)
    ensures AllKept(defs, r, names)
  {
    if m == 0 then env
    else
      var before := Rounds(defs, env, m - 1, names);
      RoundGrows(defs, 0, before, names);
      Round(defs, 0, before, names)
  }

  /** After a round without a change there are no others. */
  lemma {:induction false} RoundsStay(defs: seq<Definition>, env: Env, k: nat, m: nat, names: Naming)
    requires Coherent(defs, names) && AllKept(defs, env, names) && k <= m
    requires Round(defs, 0, Rounds(defs, env, k, names), names) == Rounds(defs, env, k, names)
    ensures Rounds(defs, env, m, names) == Rounds(defs, env, k, names)
    decreases m
  {
    hide Round;
    if k < m { RoundsStay(defs, env, k, m - 1, names); }
  }

  // ----- The inference itself -----

  /** The vectors that the walk over one body changes in place. */
  class BodyInference {
    var stackPtrs: seq<bool>
    var paramPtrs: seq<bool>

    ghost function Now(): Flags
      reads this
    {
      Flags(stackPtrs, paramPtrs)
    }

    constructor (params: seq<bool>)
      ensures Now() == Flags(params, params)
    {
      stackPtrs, paramPtrs := params, params;
    }

    method MarkAsPtr(e: Expr)
      modifies this
      ensures Now() == Mark(e, old(Now()))
      decreases e
    {
      match e
      case DeBruijn(idx) =>
        if idx < |stackPtrs| {
          var slot := |stackPtrs| - 1 - idx;
          stackPtrs := stackPtrs[slot := true];
          if slot < |paramPtrs| { paramPtrs := paramPtrs[slot := true]; }
        }
      case Move(inner) => MarkAsPtr(inner);
      case Borrow(inner) => MarkAsPtr(inner);
      case MutBorrow(inner) => MarkAsPtr(inner);
      case _ =>
    }

    method MarkOperands(n: nat, args: Exprs)
      modifies this
      ensures Now() == MarkFirst(n, args, old(Now()))
    {
      hide Mark;
      var rest, i := args, 0;
      while rest.Cons? && i < n
        invariant i <= n && MarkFirst(n, args, old(Now())) == MarkFirst(n - i, rest, Now())
        decreases rest
      {
        MarkAsPtr(rest.head);
        rest, i := rest.tail, i + 1;
      }
    }

    method MarkArguments(args: Exprs, wanted: seq<bool>)
      modifies this
      ensures Now() == MarkWanted(args, wanted, old(Now()))
    {
      hide Mark;
      var rest, i := args, 0;
      assert wanted[0..] == wanted;
      while rest.Cons? && i < |wanted|
        invariant i <= |wanted| && MarkWanted(args, wanted, old(Now())) == MarkWanted(rest, wanted[i..], Now())
        decreases rest
      {
        assert wanted[i..][1..] == wanted[i + 1..];
        if wanted[i] { MarkAsPtr(rest.head); }
        rest, i := rest.tail, i + 1;
      }
    }

    /** The end of the `Apply` case: what the callee is known to want. */
    method InferCall(callee: string, args: Exprs, env: Env, names: Naming)
      modifies this
      ensures Now() == MarkCall(callee, args, old(Now()), env, names)
    {
      var resolved := names.resolve(callee);
      if resolved == "verify" || resolved == "crypto_verify" {
        if Length(args) >= 3 { MarkOperands(3, args); }
      } else if resolved == "sign" || resolved == "crypto_sign" {
        if Length(args) >= 2 { MarkOperands(2, args); }
      } else if resolved in env.params {
        MarkArguments(args, env.params[resolved]);
      } else if callee in env.params {
        MarkArguments(args, env.params[callee]);
      }
    }

    method InferConstraints(e: Expr, env: Env, names: Naming)
      modifies this
      ensures Now() == Infer(e, old(Now()), env, names)
      decreases e, 1
    {
      hide Mark, MarkFirst, MarkCall, ReturnsPtr;
      match e
      case Let(_, _, _) => InferLet(e, env, names);
      case Prim(op, args) => InferPrim(op, args, env, names);
      case If(cond, thn, els) =>
        InferConstraints(cond, env, names);
        InferConstraints(thn, env, names);
        InferConstraints(els, env, names);
      case Move(inner) => InferConstraints(inner, env, names);
      case Borrow(inner) => InferConstraints(inner, env, names);
      case MutBorrow(inner) => InferConstraints(inner, env, names);
      case Trap(attempt, fallback) =>
        InferConstraints(attempt, env, names);
        InferConstraints(fallback, env, names);
      case Apply(func, args) =>
        InferConstraints(func, env, names);
        InferAllConstraints(args, env, names);
        if func.Identifier? { InferCall(func.name, args, env, names); }
      case Get(_, _, _) => InferField(e, env, names);
      case Set(_, _, _, _) => InferField(e, env, names);
      case Unpack(json, _) =>
        MarkAsPtr(json);
        InferConstraints(json, env, names);
      case Pack(inst) =>
        MarkAsPtr(inst);
        InferConstraints(inst, env, names);
      case Map(_, _, _) => InferField(e, env, names);
      case Filter(_, _) => InferField(e, env, names);
      case _ =>
    }

    method InferLet(e: Expr, env: Env, names: Naming)
      requires e.Let?
      modifies this
      ensures Now() == Infer(e, old(Now()), env, names)
      decreases e, 0
    {
      hide ReturnsPtr;
      var Let(_, val, body) := e;
      InferConstraints(val, env, names);
      var valPtr := ReturnsPtr(val, stackPtrs, env.rets, names);
      stackPtrs := stackPtrs + [valPtr];
      InferConstraints(body, env, names);
      stackPtrs := stackPtrs[..|stackPtrs| - 1];
    }

    /** The expressions that use an instance of a shape. */
    method InferField(e: Expr, env: Env, names: Naming)
      requires e.Get? || e.Set? || e.Map? || e.Filter?
      modifies this
      ensures Now() == Infer(e, old(Now()), env, names)
      decreases e, 0
    {
      hide Mark, MarkFirst, MarkCall, ReturnsPtr;
      MarkAsPtr(e.inst);
      InferConstraints(e.inst, env, names);
      if e.Map? || e.Filter? {
        InferConstraints(e.func, env, names);
      } else {
        InferConstraints(e.index, env, names);
        if e.Set? { InferConstraints(e.val, env, names); }
      }
    }

    method InferPrim(op: PrimOp, args: Exprs, env: Env, names: Naming)
      modifies this
      ensures Now() == Infer(Prim(op, args), old(Now()), env, names)
      decreases args, 1
    {
      hide Mark, MarkFirst;
      if op.HttpServer? {
        if args.Cons? && args.tail.Cons? {
          MarkAsPtr(args.tail.head);
          InferConstraints(args.tail.head, env, names);
        }
      } else if Demands(op).Some? {
        MarkOperands(Demands(op).value, args);
        InferAllConstraints(args, env, names);
      }
    }

    method InferAllConstraints(es: Exprs, env: Env, names: Naming)
      modifies this
      ensures Now() == InferAll(es, old(Now()), env, names)
      decreases es, 0
    {
      match es
      case Nil =>
      case Cons(head, tail) =>
        InferConstraints(head, env, names);
        InferAllConstraints(tail, env, names);
    }
  }


  /** The code generator's two tables. */
  class ModuleTypes {
    const names: Naming
    var fnReturnsPtr: map<string, bool>
    var fnParamPtrs: map<string, seq<bool>>

    ghost function Now(): Env
      reads this
    {
      Env.Env(fnReturnsPtr, fnParamPtrs)
    }

    constructor (names: Naming)
      ensures this.names == names && Now() == Env.Env(map[], map[])
    {
      this.names := names;
      fnReturnsPtr, fnParamPtrs := map[], map[];
    }

    /** Enters the functions of the module with no flag set. */
    method Initialize(exprs: seq<Expr>)
      modifies this
      ensures Now() == Initial(Definitions(exprs), old(Now()), names)
    {
      var i := 0;
      assert exprs[0..] == exprs;
      while i < |exprs|
        invariant i <= |exprs|
        invariant Initial(Definitions(exprs), old(Now()), names) == Initial(Definitions(exprs[i..]), Now(), names)
      {
        assert exprs[i..][1..] == exprs[i + 1..];
        var actual := if exprs[i].Metadata? then exprs[i].target else exprs[i];
        if actual.Define? {
          assert Definitions(exprs[i..])[1..] == Definitions(exprs[i + 1..]);
          var mangled, resolved := names.mangle(actual.name), names.resolve(actual.name);
          var none := AllFalse(|actual.params|);
          fnReturnsPtr := fnReturnsPtr[actual.name := false][mangled := false][resolved := false];
          fnParamPtrs := fnParamPtrs[actual.name := none][mangled := none][resolved := none];
        } else {
          assert Definitions(exprs[i..]) == Definitions(exprs[i + 1..]);
        }
        i := i + 1;
      }
    }

    /** One function of a round. */
    method Refine(name: string, arity: nat, body: Expr) returns (changed: bool)
      requires Kept(Definition(name, arity, body), Now(), names)
      modifies this
      ensures Now() == Step(Definition(name, arity, body), old(Now()), names)
      ensures changed <==> Now() != old(Now())
    {
      hide Infer, ReturnsPtr;
      ghost var d := Definition(name, arity, body);
      var mangled, resolved := names.mangle(name), names.resolve(name);
      var currentParams := fnParamPtrs[name];
      var inference := new BodyInference(currentParams);
      inference.InferConstraints(body, Env.Env(fnReturnsPtr, fnParamPtrs), names);
      var newParams := inference.paramPtrs;
      changed := false;
      if newParams != currentParams {
        fnParamPtrs := fnParamPtrs[name := newParams][mangled := newParams][resolved := newParams];
        changed := true;
        assert Now().params[name] != old(Now()).params[name];
      }
      assert Now() == StepParams(d, old(Now()), names);
      if ReturnsPtr(body, fnParamPtrs[name], fnReturnsPtr, names) && !fnReturnsPtr[name] {
        assert !old(fnReturnsPtr)[name];
        fnReturnsPtr := fnReturnsPtr[name := true][mangled := true][resolved := true];
        changed := true;
        assert Now().rets[name] != old(Now()).rets[name];
      }
    }

    /** One round over the module. */
    method RunRound(exprs: seq<Expr>) returns (changed: bool)
      requires Coherent(Definitions(exprs), names) && AllKept(Definitions(exprs), Now(), names)
      modifies this
      ensures Now() == Round(Definitions(exprs), 0, old(Now()), names)
      ensures changed <==> Now() != old(Now())
    {
      hide Step, Kept, EnvBelow;
      ghost var defs, start := Definitions(exprs), Now();
      var i := 0;
      ghost var k := 0;
      changed := false;
      assert exprs[0..] == exprs && defs[0..] == defs;
      EnvBelowSelf(start);
      while i < |exprs|
        invariant i <= |exprs| && k <= |defs| && defs[k..] == Definitions(exprs[i..])
        invariant AllKept(defs, Now(), names) && EnvBelow(start, Now())
        invariant Round(defs, k, Now(), names) == Round(defs, 0, start, names)
        invariant changed <==> Now() != start
      {
        assert exprs[i..][1..] == exprs[i + 1..];
        var actual := if exprs[i].Metadata? then exprs[i].target else exprs[i];
        if actual.Define? {
          ghost var before := Now();
          assert defs[k] == defs[k..][0] == Definition(actual.name, |actual.params|, actual.body);
          assert defs[k + 1..] == defs[k..][1..] == Definitions(exprs[i + 1..]);
          assert Kept(defs[k], before, names);
          StepKeeps(defs, k, before, names);
          StepGrows(defs[k], before, names);
          var refined := Refine(actual.name, |actual.params|, actual.body);
          EnvBelowTransitive(start, before, Now());
          if refined {
            if Now() == start { EnvBelowAntisymmetric(start, before); }
            changed := true;
          }
          k := k + 1;
        } else {
          assert Definitions(exprs[i..]) == Definitions(exprs[i + 1..]);
        }
        i := i + 1;
      }
      assert exprs[i..] == [];
    }

    /** `analyze_module_types`: the flags stay below every solution, and are the least one whenever the
        rounds end for want of a change, which they do if there are fewer than a hundred flags, and also if
        there are just a hundred.  In any case the flags are those of a hundred rounds. */
    method AnalyzeModuleTypes(exprs: seq<Expr>) returns (settled: bool)
      requires Coherent(Definitions(exprs), names)
      modifies this
      ensures var defs, first := Definitions(exprs), Initial(Definitions(exprs), old(Now()), names);
        && EnvBelow(first, Now()) && AllKept(defs, first, names)
        && (forall s {:trigger Solution(defs, s, names)} | Solution(defs, s, names) && EnvBelow(first, s) :: EnvBelow(Now(), s))
        && (settled ==> Solution(defs, Now(), names))
        && (Places(defs, first, names) < MAX_ROUNDS ==> settled)
        && (Places(defs, first, names) <= MAX_ROUNDS ==> Solution(defs, Now(), names))
        && Now() == Rounds(defs, first, MAX_ROUNDS, names)
    {
      hide Kept, EnvBelow, Satisfied, Flagged;
      ghost var defs := Definitions(exprs);
      Initialize(exprs);
      ghost var first := Now();
      InitialKept(defs, old(Now()), names);
      EnvBelowSelf(first);
      var changed, iterations := true, 0;
      while changed && iterations < MAX_ROUNDS
        invariant iterations <= MAX_ROUNDS && AllKept(defs, Now(), names) && EnvBelow(first, Now())
        invariant forall s {:trigger Solution(defs, s, names)} | Solution(defs, s, names) && EnvBelow(first, s) :: EnvBelow(Now(), s)
        invariant if changed then iterations <= Flagged(defs, Now(), names) else Solution(defs, Now(), names)
        invariant Now() == Rounds(defs, first, iterations, names)
        invariant !changed ==> Round(defs, 0, Now(), names) == Now()
        decreases MAX_ROUNDS - iterations
      {
        ghost var before := Now();
        changed := RunRound(exprs);
        iterations := iterations + 1;
        RoundGrows(defs, 0, before, names);
        EnvBelowTransitive(first, before, Now());
        forall s {:trigger Solution(defs, s, names)} | Solution(defs, s, names) && EnvBelow(first, s) ensures EnvBelow(Now(), s) {
          RoundBelow(defs, 0, before, s, names);
        }
        if changed {
          RoundCounts(defs, 0, before, names);
        } else {
          StillSolves(defs, before, names);
        }
      }
      if !changed { RoundsStay(defs, first, iterations, MAX_ROUNDS, names); }
      FlaggedBound(defs, Now(), names);
      PlacesKept(defs, first, Now(), names);
      if changed && Places(defs, first, names) <= MAX_ROUNDS { FullSolves(defs, Now(), names); }
      settled := !changed;
    }
  }
}
