/** What the pointer inference says of a module: which parameters are used as pointers, and which bodies
    yield one on some path. */
module PtrUses {
  import opened Ast
  import opened PtrInference
  import opened Wrappers

  // ----- Uses -----

  function Listed(es: Exprs): (r: seq<Expr>)
    ensures |r| == Length(es) && forall k | 0 <= k < |r| :: (es decreases to r[k])
  {
    match es
    case Nil => []
    case Cons(head, tail) => [head] + Listed(tail)
  }

  /** The parts of an expression, in the order in which they are written. */
  function Operands(e: Expr): (r: seq<Expr>)
    ensures forall k | 0 <= k < |r| :: (e decreases to r[k])
  {
    match e
    case Prim(_, args) => Listed(args)
    case Apply(func, args) => [func] + Listed(args)
    case Move(inner) => [inner]
    case Borrow(inner) => [inner]
    case MutBorrow(inner) => [inner]
    case Define(_, _, body, _) => [body]
    case New(_, count) => [count]
    case Get(inst, _, index) => [inst, index]
    case Set(inst, _, index, val) => [inst, index, val]
    case If(cond, thn, els) => [cond, thn, els]
    case Let(_, val, body) => [val, body]
    case Pack(inst) => [inst]
    case Unpack(json, _) => [json]
    case Map(inst, _, func) => [inst, func]
    case Filter(inst, func) => [inst, func]
    case Metadata(tag, val, target) => [tag, val, target]
    case Trap(attempt, fallback) => [attempt, fallback]
    case Integer(_) | DeBruijn(_) | Identifier(_) | Text(_) | Expand(_) | Shape(_, _, _) | Import(_, _, _) => []
  }

  /** The operands of a primitive that are strings or handles. */
  function StringOperands(op: PrimOp): set<nat> {
    match op
    case Len | SubStr => {0}
    case Cat | Loc | Reg | Split | Write | FileOpen => {0, 1}
    case HttpClient => {0, 1, 2}
    case HttpServer => {1}
    case _ => {}
  }

  /** The parameters that a call with `n` arguments makes pointers. */
  predicate CalleeWants(callee: string, j: nat, n: nat, env: Env, names: Naming) {
    var resolved := names.resolve(callee);
    if resolved in {"verify", "crypto_verify"} then j < 3 <= n
    else if resolved in {"sign", "crypto_sign"} then j < 2 <= n
    else if resolved in env.params then j < |env.params[resolved]| && env.params[resolved][j]
    else callee in env.params && j < |env.params[callee]| && env.params[callee][j]
  }

  /** The `k`th operand of `e` is used as a pointer: as a string or a handle, as an instance of a shape or
      as JSON text, or as an argument for which the callee wants a pointer. */
  predicate UsedAsPointer(e: Expr, k: nat, env: Env, names: Naming) {
    || (e.Prim? && k in StringOperands(e.op))
    || ((e.Get? || e.Set? || e.Map? || e.Filter? || e.Pack? || e.Unpack?) && k == 0)
    || (e.Apply? && e.func.Identifier? && k > 0 && CalleeWants(e.func.name, k - 1, Length(e.args), env, names))
  }

  /** Whether the inference looks into the `k`th operand. */
  predicate LooksInto(e: Expr, k: nat) {
    match e
    case Prim(op, _) =>
      (match op
       case Seq | Cat | SubStr | Len | Loc | Reg | Split | Write | HttpClient | FileOpen => true
       case HttpServer => k == 1
       case _ => false)
    case New(_, _) | Define(_, _, _, _) | Metadata(_, _, _) => false
    case _ => true
  }

  /** `e` is slot `slot` of a stack of `n`, moved or borrowed or as it is. */
  predicate Refers(e: Expr, n: nat, slot: nat) {
    if e.Move? || e.Borrow? || e.MutBorrow? then Refers(e.inner, n, slot)
    else e.DeBruijn? && slot + e.idx + 1 == n
  }

  /** Somewhere in `e`, as far as the inference looks, the slot is used as a pointer. */
  predicate Used(e: Expr, n: nat, slot: nat, env: Env, names: Naming)
    decreases e, 1
  {
    exists k | 0 <= k < |Operands(e)| :: UsedAt(e, k, n, slot, env, names)
  }

  predicate UsedAt(e: Expr, k: nat, n: nat, slot: nat, env: Env, names: Naming)
    requires k < |Operands(e)|
    decreases e, 0
  {
    var operand := Operands(e)[k];
    || (UsedAsPointer(e, k, env, names) && Refers(operand, n, slot))
    || (LooksInto(e, k) && Used(operand, if e.Let? && k == 1 then n + 1 else n, slot, env, names))
  }

  // ----- The inference flags exactly the uses -----

  /** From `f` to `g` the flags of `slot` were set if `used`, and else left alone. */
  predicate Adds(f: Flags, g: Flags, slot: nat, used: bool) {
    && |g.stack| == |f.stack| && |g.params| == |f.params|
    && (slot < |f.stack| ==> g.stack[slot] == (f.stack[slot] || used))
    && (slot < |f.params| && slot < |f.stack| ==> g.params[slot] == (f.params[slot] || used))
  }

  lemma AddsJoin(f: Flags, g: Flags, h: Flags, slot: nat, a: bool, b: bool)
    requires Adds(f, g, slot, a) && Adds(g, h, slot, b)
    ensures Adds(f, h, slot, a || b)
  {
  }

  lemma {:induction false} MarkAdds(e: Expr, f: Flags, slot: nat)
    ensures Adds(f, Mark(e, f), slot, Refers(e, |f.stack|, slot))
    decreases e
  {
    match e
    case Move(inner) => MarkAdds(inner, f, slot);
    case Borrow(inner) => MarkAdds(inner, f, slot);
    case MutBorrow(inner) => MarkAdds(inner, f, slot);
    case _ =>
  }

  /** One of the first `m` operands is the slot. */
  predicate AmongFirst(es: Exprs, m: nat, n: nat, slot: nat) {
    exists k | 0 <= k < m && k < |Listed(es)| :: Refers(Listed(es)[k], n, slot)
  }

  /** One of the operands for which a pointer is wanted is the slot. */
  predicate AmongWanted(es: Exprs, wanted: seq<bool>, n: nat, slot: nat) {
    exists k | 0 <= k < |wanted| && k < |Listed(es)| :: wanted[k] && Refers(Listed(es)[k], n, slot)
  }

  predicate UsedIn(es: Exprs, n: nat, slot: nat, env: Env, names: Naming) {
    exists k | 0 <= k < |Listed(es)| :: Used(Listed(es)[k], n, slot, env, names)
  }

  lemma AmongFirstStep(es: Exprs, m: nat, n: nat, slot: nat)
    requires es.Cons? && m > 0
    ensures AmongFirst(es, m, n, slot) <==> Refers(es.head, n, slot) || AmongFirst(es.tail, m - 1, n, slot)
  {
    hide Refers;
    forall k | 0 <= k < |Listed(es.tail)| ensures Listed(es)[k + 1] == Listed(es.tail)[k] {
    }
    if k :| 0 <= k < m && k < |Listed(es)| && Refers(Listed(es)[k], n, slot) {
      if k > 0 { assert Refers(Listed(es.tail)[k - 1], n, slot); }
    }
    if Refers(es.head, n, slot) { assert Refers(Listed(es)[0], n, slot); }
    if k :| 0 <= k < m - 1 && k < |Listed(es.tail)| && Refers(Listed(es.tail)[k], n, slot) {
      assert Refers(Listed(es)[k + 1], n, slot);
    }
  }

  lemma {:induction false} MarkFirstAdds(m: nat, es: Exprs, f: Flags, slot: nat)
    ensures Adds(f, MarkFirst(m, es, f), slot, AmongFirst(es, m, |f.stack|, slot))
    decreases m
  {
    hide Mark, Refers;
    if m > 0 && es.Cons? {
      MarkAdds(es.head, f, slot);
      var g := Mark(es.head, f);
      MarkFirstAdds(m - 1, es.tail, g, slot);
      AmongFirstStep(es, m, |f.stack|, slot);
    }
  }

  lemma AmongWantedStep(es: Exprs, wanted: seq<bool>, n: nat, slot: nat)
    requires es.Cons? && wanted != []
    ensures AmongWanted(es, wanted, n, slot)
            <==> (wanted[0] && Refers(es.head, n, slot)) || AmongWanted(es.tail, wanted[1..], n, slot)
  {
    hide Refers;
    if k :| 0 <= k < |wanted| && k < |Listed(es)| && wanted[k] && Refers(Listed(es)[k], n, slot) {
      if k > 0 { assert wanted[1..][k - 1] && Refers(Listed(es.tail)[k - 1], n, slot); }
    }
    if wanted[0] && Refers(es.head, n, slot) { assert wanted[0] && Refers(Listed(es)[0], n, slot); }
    if k :| 0 <= k < |wanted| - 1 && k < |Listed(es.tail)| && wanted[1..][k] && Refers(Listed(es.tail)[k], n, slot) {
      assert wanted[k + 1] && Refers(Listed(es)[k + 1], n, slot);
    }
  }

  lemma {:induction false} MarkWantedAdds(es: Exprs, wanted: seq<bool>, f: Flags, slot: nat)
    ensures Adds(f, MarkWanted(es, wanted, f), slot, AmongWanted(es, wanted, |f.stack|, slot))
    decreases |wanted|
  {
    hide Mark, Refers;
    if es.Cons? && wanted != [] {
      MarkAdds(es.head, f, slot);
      var g := if wanted[0] then Mark(es.head, f) else f;
      MarkWantedAdds(es.tail, wanted[1..], g, slot);
      AmongWantedStep(es, wanted, |f.stack|, slot);
    }
  }

  lemma UsedInStep(es: Exprs, n: nat, slot: nat, env: Env, names: Naming)
    requires es.Cons?
    ensures UsedIn(es, n, slot, env, names) <==> Used(es.head, n, slot, env, names) || UsedIn(es.tail, n, slot, env, names)
  {
    hide Used;
    if k :| 0 <= k < |Listed(es)| && Used(Listed(es)[k], n, slot, env, names) {
      if k > 0 { assert Used(Listed(es.tail)[k - 1], n, slot, env, names); }
    }
    if Used(es.head, n, slot, env, names) { assert Used(Listed(es)[0], n, slot, env, names); }
    if k :| 0 <= k < |Listed(es.tail)| && Used(Listed(es.tail)[k], n, slot, env, names) {
      assert Used(Listed(es)[k + 1], n, slot, env, names);
    }
  }

  lemma UsedOne(e: Expr, n: nat, slot: nat, env: Env, names: Naming)
    requires |Operands(e)| == 1
    ensures Used(e, n, slot, env, names) <==> UsedAt(e, 0, n, slot, env, names)
  {
    hide UsedAt, Operands;
  }

  lemma UsedTwo(e: Expr, n: nat, slot: nat, env: Env, names: Naming)
    requires |Operands(e)| == 2
    ensures Used(e, n, slot, env, names) <==> UsedAt(e, 0, n, slot, env, names) || UsedAt(e, 1, n, slot, env, names)
  {
    hide UsedAt, Operands;
  }

  lemma UsedThree(e: Expr, n: nat, slot: nat, env: Env, names: Naming)
    requires |Operands(e)| == 3
    ensures Used(e, n, slot, env, names)
            <==> UsedAt(e, 0, n, slot, env, names) || UsedAt(e, 1, n, slot, env, names) || UsedAt(e, 2, n, slot, env, names)
  {
    hide UsedAt, Operands;
  }

  predicate Exact(e: Expr, f: Flags, slot: nat, env: Env, names: Naming) {
    Adds(f, Infer(e, f, env, names), slot, Used(e, |f.stack|, slot, env, names))
  }

  /** The walk over an expression sets the flags of a slot, and of its parameter, if and only if the slot
      is used as a pointer somewhere in it. */
  lemma {:induction false} InferExact(e: Expr, f: Flags, slot: nat, env: Env, names: Naming)
    requires slot < |f.stack|
    ensures Exact(e, f, slot, env, names)
    decreases e, 2
  {
    hide Used, UsedAt, Infer, Adds;
    match e
    case Let(_, _, _) => LetExact(e, f, slot, env, names);
    case Prim(_, _) => PrimExact(e, f, slot, env, names);
    case Apply(_, _) => ApplyExact(e, f, slot, env, names);
    case If(_, _, _) => IfExact(e, f, slot, env, names);
    case Move(_) => AroundExact(e, f, slot, env, names);
    case Borrow(_) => AroundExact(e, f, slot, env, names);
    case MutBorrow(_) => AroundExact(e, f, slot, env, names);
    case Trap(_, _) => TrapExact(e, f, slot, env, names);
    case Get(_, _, _) => FieldExact(e, f, slot, env, names);
    case Set(_, _, _, _) => FieldExact(e, f, slot, env, names);
    case Map(_, _, _) => FieldExact(e, f, slot, env, names);
    case Filter(_, _) => FieldExact(e, f, slot, env, names);
    case Pack(_) => JsonExact(e, f, slot, env, names);
    case Unpack(_, _) => JsonExact(e, f, slot, env, names);
    case _ => NothingExact(e, f, slot, env, names);
  }

  lemma NothingExact(e: Expr, f: Flags, slot: nat, env: Env, names: Naming)
    requires e.Integer? || e.DeBruijn? || e.Identifier? || e.Text? || e.Expand? || e.Shape? || e.Import?
      || e.New? || e.Define? || e.Metadata?
    ensures Exact(e, f, slot, env, names)
  {
    forall k | 0 <= k < |Operands(e)| ensures !UsedAt(e, k, |f.stack|, slot, env, names) {
    }
  }

  lemma {:induction false} AroundExact(e: Expr, f: Flags, slot: nat, env: Env, names: Naming)
    requires (e.Move? || e.Borrow? || e.MutBorrow?) && slot < |f.stack|
    ensures Exact(e, f, slot, env, names)
    decreases e, 1
  {
    hide Used, Adds;
    InferExact(e.inner, f, slot, env, names);
    UsedOne(e, |f.stack|, slot, env, names);
  }

  lemma {:induction false} TrapExact(e: Expr, f: Flags, slot: nat, env: Env, names: Naming)
    requires e.Trap? && slot < |f.stack|
    ensures Exact(e, f, slot, env, names)
    decreases e, 1
  {
    hide Used, Adds;
    var n := |f.stack|;
    var f1 := Infer(e.attempt, f, env, names);
    InferExact(e.attempt, f, slot, env, names);
    InferExact(e.fallback, f1, slot, env, names);
    UsedTwo(e, n, slot, env, names);
    AddsJoin(f, f1, Infer(e.fallback, f1, env, names), slot, Used(e.attempt, n, slot, env, names), Used(e.fallback, n, slot, env, names));
  }

  lemma {:induction false} IfExact(e: Expr, f: Flags, slot: nat, env: Env, names: Naming)
    requires e.If? && slot < |f.stack|
    ensures Exact(e, f, slot, env, names)
    decreases e, 1
  {
    hide Used, Adds;
    var n := |f.stack|;
    var f1 := Infer(e.cond, f, env, names);
    var f2 := Infer(e.thn, f1, env, names);
    InferExact(e.cond, f, slot, env, names);
    InferExact(e.thn, f1, slot, env, names);
    InferExact(e.els, f2, slot, env, names);
    UsedThree(e, n, slot, env, names);
    var a, b, c := Used(e.cond, n, slot, env, names), Used(e.thn, n, slot, env, names), Used(e.els, n, slot, env, names);
    AddsJoin(f, f1, f2, slot, a, b);
    AddsJoin(f, f2, Infer(e.els, f2, env, names), slot, a || b, c);
  }

  lemma {:induction false} LetExact(e: Expr, f: Flags, slot: nat, env: Env, names: Naming)
    requires e.Let? && slot < |f.stack|
    ensures Exact(e, f, slot, env, names)
    decreases e, 1
  {
    hide Used, ReturnsPtr;
    var n := |f.stack|;
    var f1 := Infer(e.val, f, env, names);
    var pushed := f1.(stack := f1.stack + [ReturnsPtr(e.val, f1.stack, env.rets, names)]);
    InferExact(e.val, f, slot, env, names);
    InferExact(e.body, pushed, slot, env, names);
    UsedTwo(e, n, slot, env, names);
  }

  /** An operand that is marked and then looked into. */
  lemma {:induction false} MarkedExact(e: Expr, f: Flags, slot: nat, env: Env, names: Naming)
    requires slot < |f.stack|
    ensures Adds(f, Infer(e, Mark(e, f), env, names), slot,
                 Refers(e, |f.stack|, slot) || Used(e, |f.stack|, slot, env, names))
    decreases e, 3
  {
    hide Used, Infer, Mark, Refers;
    MarkAdds(e, f, slot);
    var f1 := Mark(e, f);
    InferExact(e, f1, slot, env, names);
    AddsJoin(f, f1, Infer(e, f1, env, names), slot, Refers(e, |f.stack|, slot), Used(e, |f.stack|, slot, env, names));
  }

  lemma {:induction false} JsonExact(e: Expr, f: Flags, slot: nat, env: Env, names: Naming)
    requires (e.Pack? || e.Unpack?) && slot < |f.stack|
    ensures Exact(e, f, slot, env, names)
    decreases e, 1
  {
    hide Used, Adds, Mark, Refers;
    MarkedExact(Operands(e)[0], f, slot, env, names);
    UsedOne(e, |f.stack|, slot, env, names);
  }

  lemma {:induction false} FieldExact(e: Expr, f: Flags, slot: nat, env: Env, names: Naming)
    requires (e.Get? || e.Set? || e.Map? || e.Filter?) && slot < |f.stack|
    ensures Exact(e, f, slot, env, names)
    decreases e, 1
  {
    hide Used, Adds, Mark, Refers;
    var n := |f.stack|;
    MarkedLength(e.inst, f);
    var f1 := Infer(e.inst, Mark(e.inst, f), env, names);
    MarkedExact(e.inst, f, slot, env, names);
    var a := Refers(e.inst, n, slot) || Used(e.inst, n, slot, env, names);
    var second := Operands(e)[1];
    var f2 := Infer(second, f1, env, names);
    InferExact(second, f1, slot, env, names);
    AddsJoin(f, f1, f2, slot, a, Used(second, n, slot, env, names));
    if e.Set? {
      InferExact(e.val, f2, slot, env, names);
      AddsJoin(f, f2, Infer(e.val, f2, env, names), slot, a || Used(second, n, slot, env, names), Used(e.val, n, slot, env, names));
      UsedThree(e, n, slot, env, names);
    } else {
      UsedTwo(e, n, slot, env, names);
    }
  }

  lemma {:induction false} InferAllExact(es: Exprs, f: Flags, slot: nat, env: Env, names: Naming)
    requires slot < |f.stack|
    ensures Adds(f, InferAll(es, f, env, names), slot, UsedIn(es, |f.stack|, slot, env, names))
    decreases es, 0
  {
    hide Used, Infer;
    match es
    case Nil =>
    case Cons(head, tail) =>
      var n := |f.stack|;
      var f1 := Infer(head, f, env, names);
      InferExact(head, f, slot, env, names);
      InferAllExact(tail, f1, slot, env, names);
      UsedInStep(es, n, slot, env, names);
      AddsJoin(f, f1, InferAll(tail, f1, env, names), slot, Used(head, n, slot, env, names), UsedIn(tail, n, slot, env, names));
  }

  lemma DemandsExact(op: PrimOp, k: nat)
    ensures k in StringOperands(op) <==> if op.HttpServer? then k == 1 else Demands(op).Some? && k < Demands(op).value
    ensures LooksInto(Prim(op, Nil), k) <==> if op.HttpServer? then k == 1 else Demands(op).Some?
  {
  }

  lemma {:induction false} PrimExact(e: Expr, f: Flags, slot: nat, env: Env, names: Naming)
    requires e.Prim? && slot < |f.stack|
    ensures Exact(e, f, slot, env, names)
    decreases e, 1
  {
    hide Adds, Mark, Refers, Used, Demands, StringOperands;
    var Prim(op, args) := e;
    var n := |f.stack|;
    if op.HttpServer? {
      if args.Cons? && args.tail.Cons? { MarkedExact(args.tail.head, f, slot, env, names); }
      ServerUsed(e, n, slot, env, names);
      if !(args.Cons? && args.tail.Cons?) { AddsNothing(f, slot); }
    } else if Demands(op).Some? {
      var m := Demands(op).value;
      MarkFirstLength(m, args, f);
      MarkFirstAdds(m, args, f, slot);
      var f1 := MarkFirst(m, args, f);
      InferAllExact(args, f1, slot, env, names);
      AddsJoin(f, f1, InferAll(args, f1, env, names), slot, AmongFirst(args, m, n, slot), UsedIn(args, n, slot, env, names));
      StringsUsed(e, n, slot, env, names);
    } else {
      SkippedUnused(e, n, slot, env, names);
      AddsNothing(f, slot);
    }
  }

  lemma AddsNothing(f: Flags, slot: nat)
    ensures Adds(f, f, slot, false)
  {
  }

  lemma ServerUsed(e: Expr, n: nat, slot: nat, env: Env, names: Naming)
    requires e.Prim? && e.op.HttpServer?
    ensures Used(e, n, slot, env, names)
            <==> (e.args.Cons? && e.args.tail.Cons?
                  && (Refers(e.args.tail.head, n, slot) || Used(e.args.tail.head, n, slot, env, names)))
  {
    hide Refers;
    forall k | 0 <= k < |Operands(e)| && k != 1 ensures !UsedAt(e, k, n, slot, env, names) {
    }
    if |Operands(e)| > 1 {
      assert Operands(e)[1] == Listed(e.args.tail)[0] == e.args.tail.head;
      assert UsedAt(e, 1, n, slot, env, names) <==> Refers(e.args.tail.head, n, slot) || Used(e.args.tail.head, n, slot, env, names);
    }
  }

  lemma StringsUsed(e: Expr, n: nat, slot: nat, env: Env, names: Naming)
    requires e.Prim? && !e.op.HttpServer? && Demands(e.op).Some?
    ensures Used(e, n, slot, env, names)
            <==> AmongFirst(e.args, Demands(e.op).value, n, slot) || UsedIn(e.args, n, slot, env, names)
  {
    hide Refers, Demands, StringOperands, Listed;
    var m, ops := Demands(e.op).value, Listed(e.args);
    forall k | 0 <= k < |ops|
      ensures UsedAt(e, k, n, slot, env, names) <==> (k < m && Refers(ops[k], n, slot)) || Used(ops[k], n, slot, env, names)
    {
      DemandsExact(e.op, k);
      assert LooksInto(e, k) == LooksInto(Prim(e.op, Nil), k);
    }
  }

  lemma SkippedUnused(e: Expr, n: nat, slot: nat, env: Env, names: Naming)
    requires e.Prim? && !e.op.HttpServer? && Demands(e.op).None?
    ensures !Used(e, n, slot, env, names)
  {
    hide Refers, Demands, StringOperands, Listed;
    forall k | 0 <= k < |Listed(e.args)| ensures !UsedAt(e, k, n, slot, env, names) {
      DemandsExact(e.op, k);
      assert LooksInto(e, k) == LooksInto(Prim(e.op, Nil), k);
    }
  }

  /** What the callee makes of the arguments. */
  predicate CallUses(callee: string, args: Exprs, n: nat, slot: nat, env: Env, names: Naming) {
    exists j | 0 <= j < |Listed(args)| :: CalleeWants(callee, j, Length(args), env, names) && Refers(Listed(args)[j], n, slot)
  }

  lemma MarkCallExact(callee: string, args: Exprs, f: Flags, slot: nat, env: Env, names: Naming)
    ensures Adds(f, MarkCall(callee, args, f, env, names), slot, CallUses(callee, args, |f.stack|, slot, env, names))
  {
    hide Refers, Mark, Adds, Listed, MarkFirst, MarkWanted;
    var n, resolved := |f.stack|, names.resolve(callee);
    MarkFirstAdds(3, args, f, slot);
    MarkFirstAdds(2, args, f, slot);
    MarkWantedAdds(args, Wanted(callee, env, names), f, slot);
    AddsNothing(f, slot);
    var ops := Listed(args);
    forall j | 0 <= j < |ops|
      ensures CalleeWants(callee, j, Length(args), env, names)
              <==> if resolved in {"verify", "crypto_verify"} then j < 3 <= Length(args)
                   else if resolved in {"sign", "crypto_sign"} then j < 2 <= Length(args)
                   else j < |Wanted(callee, env, names)| && Wanted(callee, env, names)[j]
    {
    }
  }

  lemma {:induction false} ApplyExact(e: Expr, f: Flags, slot: nat, env: Env, names: Naming)
    requires e.Apply? && slot < |f.stack|
    ensures Exact(e, f, slot, env, names)
    decreases e, 1
  {
    hide Used, Adds, Mark, Refers, MarkCall, CalleeWants;
    var Apply(func, args) := e;
    var n := |f.stack|;
    var f1 := Infer(func, f, env, names);
    var f2 := InferAll(args, f1, env, names);
    InferExact(func, f, slot, env, names);
    InferAllExact(args, f1, slot, env, names);
    var a, b := Used(func, n, slot, env, names), UsedIn(args, n, slot, env, names);
    AddsJoin(f, f1, f2, slot, a, b);
    CallUsed(e, n, slot, env, names);
    if func.Identifier? {
      MarkCallLength(func.name, args, f2, env, names);
      MarkCallExact(func.name, args, f2, slot, env, names);
      AddsJoin(f, f2, MarkCall(func.name, args, f2, env, names), slot, a || b, CallUses(func.name, args, n, slot, env, names));
    }
  }

  lemma CallUsed(e: Expr, n: nat, slot: nat, env: Env, names: Naming)
    requires e.Apply?
    ensures Used(e, n, slot, env, names)
            <==> Used(e.func, n, slot, env, names) || UsedIn(e.args, n, slot, env, names)
                 || (e.func.Identifier? && CallUses(e.func.name, e.args, n, slot, env, names))
  {
    hide Refers, CalleeWants, Listed;
    var ops := Operands(e);
    forall k | 0 <= k < |Listed(e.args)|
      ensures ops[k + 1] == Listed(e.args)[k]
      ensures UsedAt(e, k + 1, n, slot, env, names)
        <==> Used(Listed(e.args)[k], n, slot, env, names)
             || (e.func.Identifier? && CalleeWants(e.func.name, k, Length(e.args), env, names) && Refers(Listed(e.args)[k], n, slot))
    {
    }
    assert UsedAt(e, 0, n, slot, env, names) <==> Used(e.func, n, slot, env, names);
    if k :| 0 <= k < |ops| && UsedAt(e, k, n, slot, env, names) {
      if k > 0 { var j := k - 1; assert ops[j + 1] == Listed(e.args)[j]; }
    }
  }

  // ----- The kind of a result -----

  datatype Kind = Number | Pointer

  /** What a primitive puts on the stack.  The first four services of the HTTP server open a server and
      read the method, the path and the body of a request: they yield a handle and strings. */
  function ResultKind(op: PrimOp, args: Exprs): Kind {
    match op
    case HttpServer => if args.Cons? && args.head.Integer? && args.head.value in {0, 1, 2, 3} then Pointer else Number
    case Binary(_) | Len | Loc | Reg | Write | TimeNow | TimeNano | TimeGet | TimeSet | TimeArith(_) | MoneyArith(_) | Panic => Number
    case Cat | SubStr | Read | Str | Split | TimeZone | Env | OtelEmit | MoneyStr | HttpClient | HttpHeader | FileOpen => Pointer
    case Seq => Number
  }

  function CalleeKind(func: Expr, rets: map<string, bool>, names: Naming): Kind {
    if func.Identifier? && (names.known(func.name) || (func.name in rets && rets[func.name])) then Pointer else Number
  }

  /** Some path through `e` yields a value of kind `k`, with values of the kinds `slots` on the stack: each
      condition and each trap goes either way, a binding has the kind that its value took, and a callee
      yields a pointer if it is known to. */
  ghost predicate Yields(e: Expr, slots: seq<Kind>, k: Kind, rets: map<string, bool>, names: Naming)
    decreases e
  {
    match e
    case If(_, thn, els) => Yields(thn, slots, k, rets, names) || Yields(els, slots, k, rets, names)
    case Trap(attempt, fallback) => Yields(attempt, slots, k, rets, names) || Yields(fallback, slots, k, rets, names)
    case Let(_, val, body) =>
      || (Yields(val, slots, Number, rets, names) && Yields(body, slots + [Number], k, rets, names))
      || (Yields(val, slots, Pointer, rets, names) && Yields(body, slots + [Pointer], k, rets, names))
    case Prim(op, args) =>
      if op.Seq? && args.Cons? && args.tail.Cons? then Yields(args.tail.head, slots, k, rets, names)
      else k == ResultKind(op, args)
    case Set(_, _, _, val) => Yields(val, slots, k, rets, names)
    case Metadata(_, _, target) => Yields(target, slots, k, rets, names)
    case Move(inner) => Yields(inner, slots, k, rets, names)
    case Borrow(inner) => Yields(inner, slots, k, rets, names)
    case MutBorrow(inner) => Yields(inner, slots, k, rets, names)
    case DeBruijn(idx) => k == if idx < |slots| then slots[|slots| - 1 - idx] else Number
    case Apply(func, _) => k == CalleeKind(func, rets, names)
    case Text(_) | New(_, _) | Unpack(_, _) | Pack(_) | Map(_, _, _) | Filter(_, _) => k == Pointer
    case Integer(_) | Identifier(_) | Expand(_) | Define(_, _, _, _) | Shape(_, _, _) | Get(_, _, _) | Import(_, _, _) => k == Number
  }

  function PointerFlags(slots: seq<Kind>): (flags: seq<bool>) {
    seq(|slots|, i requires 0 <= i < |slots| => slots[i].Pointer?)
  }

  /** Some path always gets to the end. */
  lemma {:induction false} YieldsSome(e: Expr, slots: seq<Kind>, rets: map<string, bool>, names: Naming)
    ensures Yields(e, slots, Number, rets, names) || Yields(e, slots, Pointer, rets, names)
    decreases e
  {
    hide ResultKind, CalleeKind;
    match e
    case If(_, thn, _) => YieldsSome(thn, slots, rets, names);
    case Trap(attempt, _) => YieldsSome(attempt, slots, rets, names);
    case Let(_, val, body) =>
      YieldsSome(val, slots, rets, names);
      YieldsSome(body, slots + [Number], rets, names);
      YieldsSome(body, slots + [Pointer], rets, names);
    case Prim(op, args) => if op.Seq? && args.Cons? && args.tail.Cons? { YieldsSome(args.tail.head, slots, rets, names); }
    case Set(_, _, _, val) => YieldsSome(val, slots, rets, names);
    case Metadata(_, _, target) => YieldsSome(target, slots, rets, names);
    case Move(inner) => YieldsSome(inner, slots, rets, names);
    case Borrow(inner) => YieldsSome(inner, slots, rets, names);
    case MutBorrow(inner) => YieldsSome(inner, slots, rets, names);
    case _ =>
  }

  /** An expression is said to return a pointer if and only if some path through it yields one. */
  lemma {:induction false} ReturnsExact(e: Expr, slots: seq<Kind>, env: Env, names: Naming)
    ensures ReturnsPtr(e, PointerFlags(slots), env.rets, names) <==> Yields(e, slots, Pointer, env.rets, names)
    decreases e
  {
    match e
    case If(_, thn, els) => ReturnsExact(thn, slots, env, names); ReturnsExact(els, slots, env, names);
    case Trap(attempt, fallback) => ReturnsExact(attempt, slots, env, names); ReturnsExact(fallback, slots, env, names);
    case Let(_, _, _) => LetReturns(e, slots, env, names);
    case Prim(op, args) =>
      if op.Seq? && args.Cons? && args.tail.Cons? { ReturnsExact(args.tail.head, slots, env, names); }
    case Set(_, _, _, val) => ReturnsExact(val, slots, env, names);
    case Metadata(_, _, target) => ReturnsExact(target, slots, env, names);
    case Move(inner) => ReturnsExact(inner, slots, env, names);
    case Borrow(inner) => ReturnsExact(inner, slots, env, names);
    case MutBorrow(inner) => ReturnsExact(inner, slots, env, names);
    case _ =>
  }

  lemma {:induction false} LetReturns(e: Expr, slots: seq<Kind>, env: Env, names: Naming)
    requires e.Let?
    ensures ReturnsPtr(e, PointerFlags(slots), env.rets, names) <==> Yields(e, slots, Pointer, env.rets, names)
    decreases e, 0
  {
    var Let(_, val, body) := e;
    var flags, rets := PointerFlags(slots), env.rets;
    ReturnsExact(val, slots, env, names);
    assert PointerFlags(slots + [Pointer]) == flags + [true];
    assert PointerFlags(slots + [Number]) == flags + [false];
    ReturnsExact(body, slots + [Pointer], env, names);
    ReturnsExact(body, slots + [Number], env, names);
    EnvBelowSelf(env);
    ReturnsMonotone(body, flags + [false], flags + [true], env, env, names);
    YieldsSome(val, slots, rets, names);
  }

  // ----- All functions of a module -----

  function KindsOf(flags: seq<bool>): (slots: seq<Kind>)
    ensures PointerFlags(slots) == flags
  {
    var slots := seq(|flags|, i requires 0 <= i < |flags| => if flags[i] then Pointer else Number);
    assert PointerFlags(slots) == flags;
    slots
  }

  /** The body of `d` uses the `j`th parameter as a pointer. */
  predicate UsesParam(d: Definition, j: nat, env: Env, names: Naming)
    requires d.name in env.params
  {
    Used(d.body, |env.params[d.name]|, j, env, names)
  }

  /** Some path through the body of `d` yields a pointer. */
  ghost predicate YieldsPointer(d: Definition, env: Env, names: Naming)
    requires d.name in env.params
  {
    Yields(d.body, KindsOf(env.params[d.name]), Pointer, env.rets, names)
  }

  lemma {:induction false} UsedMonotone(e: Expr, n: nat, slot: nat, a: Env, b: Env, names: Naming)
    requires EnvBelow(a, b) && Used(e, n, slot, a, names)
    ensures Used(e, n, slot, b, names)
    decreases e
  {
    var k :| 0 <= k < |Operands(e)| && UsedAt(e, k, n, slot, a, names);
    if UsedAsPointer(e, k, a, names) && Refers(Operands(e)[k], n, slot) {
      UsedAsPointerMonotone(e, k, a, b, names);
    } else {
      UsedMonotone(Operands(e)[k], if e.Let? && k == 1 then n + 1 else n, slot, a, b, names);
    }
    assert UsedAt(e, k, n, slot, b, names);
  }

  lemma UsedAsPointerMonotone(e: Expr, k: nat, a: Env, b: Env, names: Naming)
    requires EnvBelow(a, b) && UsedAsPointer(e, k, a, names)
    ensures UsedAsPointer(e, k, b, names)
  {
    if e.Apply? && e.func.Identifier? && k > 0 && CalleeWants(e.func.name, k - 1, Length(e.args), a, names) {
      var callee, resolved := e.func.name, names.resolve(e.func.name);
      if resolved in a.params {
        assert Below(a.params[resolved], b.params[resolved]);
      } else if callee in a.params {
        assert Below(a.params[callee], b.params[callee]);
      }
    }
  }

  lemma YieldsMonotone(d: Definition, a: Env, b: Env, names: Naming)
    requires EnvBelow(a, b) && d.name in a.params && d.name in b.params && YieldsPointer(d, a, names)
    ensures YieldsPointer(d, b, names)
  {
    hide Yields, ReturnsPtr;
    var v, w := a.params[d.name], b.params[d.name];
    assert Below(v, w);
    ReturnsExact(d.body, KindsOf(v), a, names);
    ReturnsExact(d.body, KindsOf(w), b, names);
    ReturnsMonotone(d.body, v, w, a, b, names);
  }

  /** At every solution each parameter that its function uses as a pointer is flagged, and each function
      of which some path yields one. */
  lemma SolutionFlags(defs: seq<Definition>, env: Env, names: Naming, i: nat)
    requires Solution(defs, env, names) && i < |defs|
    ensures defs[i].name in env.params && defs[i].name in env.rets
    ensures forall j | 0 <= j < |env.params[defs[i].name]| :: UsesParam(defs[i], j, env, names) ==> env.params[defs[i].name][j]
    ensures YieldsPointer(defs[i], env, names) ==> env.rets[defs[i].name]
  {
    hide Used, Yields, ReturnsPtr, Infer;
    var d := defs[i];
    assert Satisfied(d, env, names);
    var v := env.params[d.name];
    forall j | 0 <= j < |v| ensures UsesParam(d, j, env, names) ==> v[j] {
      InferExact(d.body, Flags(v, v), j, env, names);
    }
    ReturnsExact(d.body, KindsOf(v), env, names);
  }

  /** Some definition of the name has a use for the `j`th parameter. */
  predicate ParamBacked(defs: seq<Definition>, name: string, j: nat, env: Env, names: Naming)
    requires name in env.params
  {
    exists k | 0 <= k < |defs| :: defs[k].name == name && UsesParam(defs[k], j, env, names)
  }

  ghost predicate ReturnBacked(defs: seq<Definition>, name: string, env: Env, names: Naming)
    requires name in env.params
  {
    exists k | 0 <= k < |defs| :: defs[k].name == name && YieldsPointer(defs[k], env, names)
  }

  /** Nothing is flagged without a reason. */
  ghost predicate Backed(defs: seq<Definition>, name: string, env: Env, names: Naming) {
    && name in env.params && name in env.rets
    && (forall j | 0 <= j < |env.params[name]| :: env.params[name][j] ==> ParamBacked(defs, name, j, env, names))
    && (env.rets[name] ==> ReturnBacked(defs, name, env, names))
  }

  ghost predicate AllBacked(defs: seq<Definition>, env: Env, names: Naming) {
    forall i | 0 <= i < |defs| :: Backed(defs, defs[i].name, env, names)
  }

  lemma ParamBackedMonotone(defs: seq<Definition>, name: string, j: nat, a: Env, b: Env, names: Naming)
    requires EnvBelow(a, b) && name in a.params && name in b.params && ParamBacked(defs, name, j, a, names)
    ensures ParamBacked(defs, name, j, b, names)
  {
    hide Used;
    var k :| 0 <= k < |defs| && defs[k].name == name && UsesParam(defs[k], j, a, names);
    assert Below(a.params[name], b.params[name]);
    UsedMonotone(defs[k].body, |a.params[name]|, j, a, b, names);
    assert UsesParam(defs[k], j, b, names);
  }

  lemma ReturnBackedMonotone(defs: seq<Definition>, name: string, a: Env, b: Env, names: Naming)
    requires EnvBelow(a, b) && name in a.params && name in b.params && ReturnBacked(defs, name, a, names)
    ensures ReturnBacked(defs, name, b, names)
  {
    hide Yields;
    var k :| 0 <= k < |defs| && defs[k].name == name && YieldsPointer(defs[k], a, names);
    YieldsMonotone(defs[k], a, b, names);
  }

  /** A step leaves the flags of functions of other names alone, and gives its own those it has a reason for. */
  lemma StepBacked(defs: seq<Definition>, i: nat, env: Env, names: Naming)
    requires i < |defs| && Coherent(defs, names) && AllKept(defs, env, names) && AllBacked(defs, env, names)
    requires Kept(defs[i], env, names)
    ensures AllBacked(defs, Step(defs[i], env, names), names)
  {
    hide Used, Yields, ReturnsPtr, Infer, EnvBelow, ParamBacked, ReturnBacked;
    var d, next := defs[i], Step(defs[i], env, names);
    StepGrows(d, env, names);
    forall k | 0 <= k < |defs| ensures Backed(defs, defs[k].name, next, names) {
      assert Backed(defs, defs[k].name, env, names) && Kept(defs[k], env, names);
      if defs[k].name == d.name {
        OwnBacked(defs, i, env, names);
      } else {
        assert Keys(d, names) !! Keys(defs[k], names);
        assert defs[k].name in Keys(defs[k], names) && defs[k].name !in Keys(d, names);
        OtherBacked(defs, defs[k].name, env, next, names);
      }
    }
  }

  lemma OtherBacked(defs: seq<Definition>, name: string, a: Env, b: Env, names: Naming)
    requires EnvBelow(a, b) && Backed(defs, name, a, names)
    requires name in b.params && name in b.rets && b.params[name] == a.params[name] && b.rets[name] == a.rets[name]
    ensures Backed(defs, name, b, names)
  {
    hide EnvBelow, ParamBacked, ReturnBacked;
    forall j | 0 <= j < |b.params[name]| && b.params[name][j] ensures ParamBacked(defs, name, j, b, names) {
      ParamBackedMonotone(defs, name, j, a, b, names);
    }
    if b.rets[name] { ReturnBackedMonotone(defs, name, a, b, names); }
  }

  lemma OwnBacked(defs: seq<Definition>, i: nat, env: Env, names: Naming)
    requires i < |defs| && Kept(defs[i], env, names) && Backed(defs, defs[i].name, env, names)
    ensures Backed(defs, defs[i].name, Step(defs[i], env, names), names)
  {
    hide Used, Yields, ReturnsPtr, Infer, EnvBelow, ParamBacked, ReturnBacked;
    var d, mid, next := defs[i], StepParams(defs[i], env, names), Step(defs[i], env, names);
    var v := env.params[d.name];
    EnvBelowSelf(env);
    InferOrdered(d.body, Flags(v, v), Flags(v, v), env, env, names);
    SetParamsOrdered(d, env, Inferred(d, env, names), names);
    StepGrows(d, env, names);
    assert next.params == mid.params && next.params[d.name] == Inferred(d, env, names);
    forall j | 0 <= j < |v| && next.params[d.name][j] ensures ParamBacked(defs, d.name, j, next, names) {
      InferExact(d.body, Flags(v, v), j, env, names);
      if !v[j] {
        assert UsesParam(d, j, env, names);
        assert ParamBacked(defs, d.name, j, env, names) by { ParamWitness(defs, i, j, env, names); }
      }
      ParamBackedMonotone(defs, d.name, j, env, next, names);
    }
    if next.rets[d.name] {
      if env.rets[d.name] {
        ReturnBackedMonotone(defs, d.name, env, next, names);
      } else {
        ReturnsExact(d.body, KindsOf(mid.params[d.name]), mid, names);
        ReturnWitness(defs, i, mid, names);
        assert EnvBelow(mid, next) by { EnvBelowSelf(mid); ReturnsUp(d, mid, names); }
        ReturnBackedMonotone(defs, d.name, mid, next, names);
      }
    }
  }

  lemma ReturnsUp(d: Definition, env: Env, names: Naming)
    requires Kept(d, env, names)
    ensures EnvBelow(env, StepReturns(d, env, names))
  {
    hide ReturnsPtr;
  }

  lemma ParamWitness(defs: seq<Definition>, i: nat, j: nat, env: Env, names: Naming)
    requires i < |defs| && defs[i].name in env.params && UsesParam(defs[i], j, env, names)
    ensures ParamBacked(defs, defs[i].name, j, env, names)
  {
    hide Used;
  }

  lemma ReturnWitness(defs: seq<Definition>, i: nat, env: Env, names: Naming)
    requires i < |defs| && defs[i].name in env.params && YieldsPointer(defs[i], env, names)
    ensures ReturnBacked(defs, defs[i].name, env, names)
  {
    hide Yields;
  }

  lemma {:induction false} RoundBacked(defs: seq<Definition>, i: nat, env: Env, names: Naming)
    requires i <= |defs| && Coherent(defs, names) && AllKept(defs, env, names) && AllBacked(defs, env, names)
    ensures AllBacked(defs, Round(defs, i, env, names), names)
    decreases |defs| - i
  {
    hide Step, Kept, Backed;
    if i < |defs| {
      assert Kept(defs[i], env, names);
      StepKeeps(defs, i, env, names);
      StepBacked(defs, i, env, names);
      RoundBacked(defs, i + 1, Step(defs[i], env, names), names);
    }
  }

  lemma {:induction false} RoundsBacked(defs: seq<Definition>, env: Env, m: nat, names: Naming)
    requires Coherent(defs, names) && AllKept(defs, env, names) && AllBacked(defs, env, names)
    ensures AllBacked(defs, Rounds(defs, env, m, names), names)
    decreases m
  {
    hide Round, Backed;
    if m > 0 {
      RoundsBacked(defs, env, m - 1, names);
      RoundBacked(defs, 0, Rounds(defs, env, m - 1, names), names);
    }
  }

  predicate Clear(name: string, env: Env) {
    && name in env.params && name in env.rets && !env.rets[name]
    && forall j | 0 <= j < |env.params[name]| :: !env.params[name][j]
  }

  lemma {:induction false} InitialClear(name: string, defs: seq<Definition>, env: Env, names: Naming)
    requires Clear(name, env) || exists i | 0 <= i < |defs| :: defs[i].name == name
    ensures Clear(name, Initial(defs, env, names))
    decreases |defs|
  {
    if defs != [] {
      var next := SetParams(SetReturns(env, defs[0], false, names), defs[0], AllFalse(defs[0].arity), names);
      if i :| 0 < i < |defs| && defs[i].name == name {
        assert defs[1..][i - 1].name == name;
      } else {
        assert Clear(name, next);
      }
      InitialClear(name, defs[1..], next, names);
    }
  }

  /** After any number of rounds nothing is flagged without a use, a path that yields a pointer, or a call
      that leads to one; and once the flags are a solution, a parameter is flagged if and only if a
      definition of its function uses it as a pointer, and a function if and only if some path yields one. */
  lemma FlagsExact(defs: seq<Definition>, env: Env, m: nat, names: Naming, i: nat)
    requires Coherent(defs, names) && i < |defs|
    ensures AllKept(defs, Initial(defs, env, names), names)
    ensures var now, name := Rounds(defs, Initial(defs, env, names), m, names), defs[i].name;
      && Backed(defs, name, now, names)
      && (Solution(defs, now, names) ==>
            && (forall j | 0 <= j < |now.params[name]| :: now.params[name][j] <==> ParamBacked(defs, name, j, now, names))
            && (now.rets[name] <==> ReturnBacked(defs, name, now, names)))
  {
    hide Used, Yields, Rounds, Solution, Backed;
    var first := Initial(defs, env, names);
    InitialKept(defs, env, names);
    forall k | 0 <= k < |defs| ensures Backed(defs, defs[k].name, first, names) {
      InitialClear(defs[k].name, defs, env, names);
      ClearBacked(defs, defs[k].name, first, names);
    }
    RoundsBacked(defs, first, m, names);
    var now := Rounds(defs, first, m, names);
    if Solution(defs, now, names) { SolutionBacked(defs, now, names, defs[i].name); }
  }

  lemma ClearBacked(defs: seq<Definition>, name: string, env: Env, names: Naming)
    requires Clear(name, env)
    ensures Backed(defs, name, env, names)
  {
  }

  lemma SolutionBacked(defs: seq<Definition>, env: Env, names: Naming, name: string)
    requires Solution(defs, env, names) && Backed(defs, name, env, names)
    ensures forall j | 0 <= j < |env.params[name]| :: env.params[name][j] <==> ParamBacked(defs, name, j, env, names)
    ensures env.rets[name] <==> ReturnBacked(defs, name, env, names)
  {
    hide Solution, UsesParam, YieldsPointer;
    forall k | 0 <= k < |defs| && defs[k].name == name
      ensures forall j | 0 <= j < |env.params[name]| :: UsesParam(defs[k], j, env, names) ==> env.params[name][j]
      ensures YieldsPointer(defs[k], env, names) ==> env.rets[name]
    {
      SolutionFlags(defs, env, names, k);
    }
  }
}
