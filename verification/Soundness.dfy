/** When the checker of `src/compiler/analysis/verify.rs` speaks for the generator of
    `src/compiler/codegen/expr.rs`, and what that is worth on every path of a compiled function. */
module Soundness {
  import opened Ast
  import opened Generator
  import opened Ownership
  import opened Wrappers

  // ----- What the generator looks at -----

  /** `e` without what the generator skips: the tag and the value of metadata, the body of a nested
      definition, and the field of a `map`, which is not looked up.  For slots and shapes a `map` without
      a field is a filter. */
  function Strip(e: Expr): Expr {
    match e
    case Prim(op, args) => Prim(op, StripAll(args))
    case Apply(func, args) => Apply(func, StripAll(args))
    case Move(inner) => Move(Strip(inner))
    case Borrow(inner) => Borrow(Strip(inner))
    case MutBorrow(inner) => MutBorrow(Strip(inner))
    case Define(name, params, _, exported) => Define(name, params, Integer(0), exported)
    case New(shape, count) => New(shape, Strip(count))
    case Get(inst, field, index) => Get(Strip(inst), field, Strip(index))
    case Set(inst, field, index, val) => Set(Strip(inst), field, Strip(index), Strip(val))
    case If(cond, thn, els) => If(Strip(cond), Strip(thn), Strip(els))
    case Let(name, val, body) => Let(name, Strip(val), Strip(body))
    case Pack(inst) => Pack(Strip(inst))
    case Unpack(json, shape) => Unpack(Strip(json), shape)
    case Map(inst, _, func) => Filter(Strip(inst), func)
    case Filter(inst, func) => Filter(Strip(inst), func)
    case Metadata(_, _, target) => Metadata(Integer(0), Integer(0), Strip(target))
    case Trap(attempt, fallback) => Trap(Strip(attempt), Strip(fallback))
    case _ => e
  }

  function StripAll(es: Exprs): Exprs {
    match es
    case Nil => Nil
    case Cons(head, tail) => Cons(Strip(head), StripAll(tail))
  }

  lemma {:induction false} StripShape(e: Expr, sh: Shapes)
    ensures InferShape(Strip(e), sh) == InferShape(e, sh)
    decreases e
  {
    match e
    case Map(inst, _, _) => StripShape(inst, sh);
    case Filter(inst, _) => StripShape(inst, sh);
    case Move(inner) => StripShape(inner, sh);
    case Borrow(inner) => StripShape(inner, sh);
    case MutBorrow(inner) => StripShape(inner, sh);
    case _ =>
  }

  /** The names that the checker looks up and the generator takes as they are. */
  predicate NamesKnown(e: Expr, env: Env) {
    match e
    case Identifier(name) => name in env.functions
    case Prim(_, args) => AllNamesKnown(args, env)
    case Apply(func, args) => OperatorKnown(func, env) && AllNamesKnown(args, env)
    case Move(inner) => NamesKnown(inner, env)
    case Borrow(inner) => NamesKnown(inner, env)
    case MutBorrow(inner) => NamesKnown(inner, env)
    case New(shape, count) => shape in env.shapes && NamesKnown(count, env)
    case Get(inst, _, index) => NamesKnown(inst, env) && NamesKnown(index, env)
    case Set(inst, _, index, val) => NamesKnown(inst, env) && NamesKnown(index, env) && NamesKnown(val, env)
    case If(cond, thn, els) => NamesKnown(cond, env) && NamesKnown(thn, env) && NamesKnown(els, env)
    case Let(_, val, body) => NamesKnown(val, env) && NamesKnown(body, env)
    case Pack(inst) => NamesKnown(inst, env)
    case Unpack(json, _) => NamesKnown(json, env)
    case Map(inst, _, func) => NamesKnown(inst, env) && OperatorKnown(func, env)
    case Filter(inst, func) => NamesKnown(inst, env) && OperatorKnown(func, env)
    case Metadata(_, _, target) => NamesKnown(target, env)
    case Trap(attempt, fallback) => NamesKnown(attempt, env) && NamesKnown(fallback, env)
    case _ => true
  }

  predicate AllNamesKnown(es: Exprs, env: Env) {
    match es
    case Nil => true
    case Cons(head, tail) => NamesKnown(head, env) && AllNamesKnown(tail, env)
  }

  /** The slot states a generation ends in, or the error it aborts with. */
  function Answer(g: Result<Gened>): Result<States> {
    match g
    case Ok(gened) => Ok(gened.st)
    case Err(error) => Err(error)
  }

  predicate Exact(e: Expr, env: Env, st: States, sh: Shapes, ids: seq<nat>, next: nat)
    requires |st| == |sh| == |ids|
  {
    Answer(Gen(e, env, st, sh, ids, next)) == Verify(Strip(e), env, st, sh)
  }

  /** The generator does on any code what the checker does on the stripped code: it gets through where
      the checker accepts, with the same slot states, and aborts where it refuses, with the same error. */
  lemma {:induction false} GenExact(e: Expr, env: Env, st: States, sh: Shapes, ids: seq<nat>, next: nat)
    requires |st| == |sh| == |ids| && NamesKnown(e, env)
    ensures Exact(e, env, st, sh, ids, next)
    decreases e, 1
  {
    hide FieldFound, InferShape, Kept;
    match e
    case Prim(_, args) => AllExact(args, env, st, sh, ids, next);
    case Apply(_, args) => AllExact(args, env, st, sh, ids, next);
    case Move(inner) => if !inner.DeBruijn? && !inner.Expand? { GenExact(inner, env, st, sh, ids, next); }
    case Borrow(inner) => GenExact(inner, env, st, sh, ids, next);
    case MutBorrow(inner) => GenExact(inner, env, st, sh, ids, next);
    case Define(_, _, _, _) => assert Verify(Integer(0), env, st, sh) == Ok(st);
    case New(_, count) => GenExact(count, env, st, sh, ids, next);
    case Get(_, _, _) => ExactGet(e, env, st, sh, ids, next);
    case Set(_, _, _, _) => ExactSet(e, env, st, sh, ids, next);
    case If(_, _, _) => ExactIf(e, env, st, sh, ids, next);
    case Let(_, _, _) => ExactLet(e, env, st, sh, ids, next);
    case Pack(inst) => GenExact(inst, env, st, sh, ids, next); StripShape(inst, sh);
    case Unpack(json, _) => GenExact(json, env, st, sh, ids, next);
    case Map(inst, _, _) => GenExact(inst, env, st, sh, ids, next); StripShape(inst, sh);
    case Filter(inst, _) => GenExact(inst, env, st, sh, ids, next); StripShape(inst, sh);
    case Metadata(_, _, target) =>
      GenExact(target, env, st, sh, ids, next);
      assert Verify(Integer(0), env, st, sh) == Ok(st);
    case Trap(_, _) => ExactTrap(e, env, st, sh, ids, next);
    case _ =>
  }

  lemma {:induction false} ExactGet(e: Expr, env: Env, st: States, sh: Shapes, ids: seq<nat>, next: nat)
    requires e.Get? && |st| == |sh| == |ids| && NamesKnown(e, env)
    ensures Exact(e, env, st, sh, ids, next)
    decreases e, 0
  {
    hide FieldFound, InferShape;
    StripShape(e.inst, sh);
    GenExact(e.inst, env, st, sh, ids, next);
    var r1 := Gen(e.inst, env, st, sh, ids, next);
    if r1.Ok? { GenExact(e.index, env, r1.value.st, sh, ids, r1.value.next); }
  }

  lemma {:induction false} ExactSet(e: Expr, env: Env, st: States, sh: Shapes, ids: seq<nat>, next: nat)
    requires e.Set? && |st| == |sh| == |ids| && NamesKnown(e, env)
    ensures Exact(e, env, st, sh, ids, next)
    decreases e, 0
  {
    hide FieldFound, InferShape;
    StripShape(e.inst, sh);
    GenExact(e.inst, env, st, sh, ids, next);
    var r1 := Gen(e.inst, env, st, sh, ids, next);
    if r1.Ok? {
      GenExact(e.index, env, r1.value.st, sh, ids, r1.value.next);
      var r2 := Gen(e.index, env, r1.value.st, sh, ids, r1.value.next);
      if r2.Ok? { GenExact(e.val, env, r2.value.st, sh, ids, r2.value.next); }
    }
  }

  lemma {:induction false} ExactIf(e: Expr, env: Env, st: States, sh: Shapes, ids: seq<nat>, next: nat)
    requires e.If? && |st| == |sh| == |ids| && NamesKnown(e, env)
    ensures Exact(e, env, st, sh, ids, next)
    decreases e, 0
  {
    GenExact(e.cond, env, st, sh, ids, next);
    var r1 := Gen(e.cond, env, st, sh, ids, next);
    if r1.Ok? {
      GenExact(e.thn, env, r1.value.st, sh, ids, r1.value.next);
      var r2 := Gen(e.thn, env, r1.value.st, sh, ids, r1.value.next);
      if r2.Ok? { GenExact(e.els, env, r1.value.st, sh, ids, r2.value.next); }
    }
  }

  lemma {:induction false} ExactLet(e: Expr, env: Env, st: States, sh: Shapes, ids: seq<nat>, next: nat)
    requires e.Let? && |st| == |sh| == |ids| && NamesKnown(e, env)
    ensures Exact(e, env, st, sh, ids, next)
    decreases e, 0
  {
    hide InferShape;
    StripShape(e.val, sh);
    GenExact(e.val, env, st, sh, ids, next);
    var r1 := Gen(e.val, env, st, sh, ids, next);
    if r1.Ok? {
      var g1 := r1.value;
      GenExact(e.body, env, g1.st + [Available], sh + [InferShape(e.val, sh)], ids + [g1.next], g1.next + 1);
    }
  }

  lemma {:induction false} ExactTrap(e: Expr, env: Env, st: States, sh: Shapes, ids: seq<nat>, next: nat)
    requires e.Trap? && |st| == |sh| == |ids| && NamesKnown(e, env)
    ensures Exact(e, env, st, sh, ids, next)
    decreases e, 0
  {
    hide Kept;
    var innerShapes, innerIds := Kept(st, sh), Kept(st, ids);
    KeptSameLength(st, sh, ids);
    var inner := AllBorrowed(|innerShapes|);
    GenExact(e.attempt, env, inner, innerShapes, innerIds, next);
    var r1 := Gen(e.attempt, env, inner, innerShapes, innerIds, next);
    if r1.Ok? { GenExact(e.fallback, env, inner, innerShapes, innerIds, r1.value.next); }
  }

  lemma {:induction false} AllExact(es: Exprs, env: Env, st: States, sh: Shapes, ids: seq<nat>, next: nat)
    requires |st| == |sh| == |ids| && AllNamesKnown(es, env)
    ensures Answer(GenAll(es, env, st, sh, ids, next)) == VerifyAll(StripAll(es), env, st, sh)
    decreases es, 0
  {
    match es
    case Nil =>
    case Cons(head, tail) =>
      GenExact(head, env, st, sh, ids, next);
      var r1 := Gen(head, env, st, sh, ids, next);
      if r1.Ok? { AllExact(tail, env, r1.value.st, sh, ids, r1.value.next); }
  }

  /** The checker has looked up every name of what it accepts. */
  lemma {:induction false} AcceptedNames(e: Expr, env: Env, st: States, sh: Shapes)
    requires |st| == |sh| && Verify(e, env, st, sh).Ok?
    ensures NamesKnown(e, env)
    decreases e
  {
    hide FieldFound, InferShape, Kept;
    match e
    case Prim(_, args) => AllAcceptedNames(args, env, st, sh);
    case Apply(_, args) => AllAcceptedNames(args, env, st, sh);
    case Move(inner) => if !inner.DeBruijn? && !inner.Expand? { AcceptedNames(inner, env, st, sh); }
    case Borrow(inner) => AcceptedNames(inner, env, st, sh);
    case MutBorrow(inner) => AcceptedNames(inner, env, st, sh);
    case New(_, count) => AcceptedNames(count, env, st, sh);
    case Get(inst, _, index) =>
      AcceptedNames(inst, env, st, sh);
      AcceptedNames(index, env, Verify(inst, env, st, sh).value, sh);
    case Set(inst, _, index, val) =>
      AcceptedNames(inst, env, st, sh);
      var st1 := Verify(inst, env, st, sh).value;
      AcceptedNames(index, env, st1, sh);
      AcceptedNames(val, env, Verify(index, env, st1, sh).value, sh);
    case If(cond, thn, els) =>
      AcceptedNames(cond, env, st, sh);
      AcceptedNames(thn, env, Verify(cond, env, st, sh).value, sh);
      AcceptedNames(els, env, Verify(cond, env, st, sh).value, sh);
    case Let(_, val, body) =>
      AcceptedNames(val, env, st, sh);
      AcceptedNames(body, env, Verify(val, env, st, sh).value + [Available], sh + [InferShape(val, sh)]);
    case Pack(inst) => AcceptedNames(inst, env, st, sh);
    case Unpack(json, _) => AcceptedNames(json, env, st, sh);
    case Map(inst, _, _) => AcceptedNames(inst, env, st, sh);
    case Filter(inst, _) => AcceptedNames(inst, env, st, sh);
    case Metadata(tag, val, target) =>
      var st1 := Verify(tag, env, st, sh).value;
      AcceptedNames(target, env, Verify(val, env, st1, sh).value, sh);
    case Trap(attempt, fallback) =>
      AcceptedNames(attempt, env, AllBorrowed(|Kept(st, sh)|), Kept(st, sh));
      AcceptedNames(fallback, env, AllBorrowed(|Kept(st, sh)|), Kept(st, sh));
    case _ =>
  }

  lemma {:induction false} AllAcceptedNames(es: Exprs, env: Env, st: States, sh: Shapes)
    requires |st| == |sh| && VerifyAll(es, env, st, sh).Ok?
    ensures AllNamesKnown(es, env)
    decreases es
  {
    match es
    case Nil =>
    case Cons(head, tail) =>
      AcceptedNames(head, env, st, sh);
      AllAcceptedNames(tail, env, Verify(head, env, st, sh).value, sh);
  }

  lemma {:induction false} StripNames(e: Expr, env: Env)
    ensures NamesKnown(Strip(e), env) <==> NamesKnown(e, env)
    decreases e
  {
    hide OperatorKnown;
    match e
    case Prim(_, args) => AllStripNames(args, env);
    case Apply(_, args) => AllStripNames(args, env);
    case Move(inner) => StripNames(inner, env);
    case Borrow(inner) => StripNames(inner, env);
    case MutBorrow(inner) => StripNames(inner, env);
    case New(_, count) => StripNames(count, env);
    case Get(inst, _, index) => StripNames(inst, env); StripNames(index, env);
    case Set(inst, _, index, val) => StripNames(inst, env); StripNames(index, env); StripNames(val, env);
    case If(cond, thn, els) => StripNames(cond, env); StripNames(thn, env); StripNames(els, env);
    case Let(_, val, body) => StripNames(val, env); StripNames(body, env);
    case Pack(inst) => StripNames(inst, env);
    case Unpack(json, _) => StripNames(json, env);
    case Map(inst, _, _) => StripNames(inst, env);
    case Filter(inst, _) => StripNames(inst, env);
    case Metadata(_, _, target) => StripNames(target, env);
    case Trap(attempt, fallback) => StripNames(attempt, env); StripNames(fallback, env);
    case _ =>
  }

  lemma {:induction false} AllStripNames(es: Exprs, env: Env)
    ensures AllNamesKnown(StripAll(es), env) <==> AllNamesKnown(es, env)
    decreases es
  {
    match es
    case Nil =>
    case Cons(head, tail) => StripNames(head, env); AllStripNames(tail, env);
  }

  /** Code that the checker accepts gets through the generator if and only if the checker accepts it
      stripped as well, and otherwise the generator aborts with the error of that second check. */
  lemma AcceptedCompiles(e: Expr, env: Env, st: States, sh: Shapes, ids: seq<nat>, next: nat)
    requires |st| == |sh| == |ids| && Verify(e, env, st, sh).Ok?
    ensures Gen(e, env, st, sh, ids, next).Ok? <==> Verify(Strip(e), env, st, sh).Ok?
    ensures Answer(Gen(e, env, st, sh, ids, next)) == Verify(Strip(e), env, st, sh)
  {
    AcceptedNames(e, env, st, sh);
    GenExact(e, env, st, sh, ids, next);
  }

  /** Accepted or not, code that the checker accepts when stripped gets through the generator. */
  lemma StrippedCompiles(e: Expr, env: Env, st: States, sh: Shapes, ids: seq<nat>, next: nat)
    requires |st| == |sh| == |ids| && Verify(Strip(e), env, st, sh).Ok?
    ensures Answer(Gen(e, env, st, sh, ids, next)) == Verify(Strip(e), env, st, sh)
  {
    AcceptedNames(Strip(e), env, st, sh);
    StripNames(e, env);
    GenExact(e, env, st, sh, ids, next);
  }

  // ----- Code whose metadata moves nothing -----

  /** No slot is moved by checking `e`; what a trap does inside stays inside. */
  predicate MoveFree(e: Expr) {
    match e
    case Prim(_, args) => AllMoveFree(args)
    case Apply(_, args) => AllMoveFree(args)
    case Move(inner) => !inner.DeBruijn? && !inner.Expand? && MoveFree(inner)
    case Borrow(inner) => MoveFree(inner)
    case MutBorrow(inner) => MoveFree(inner)
    case Define(_, _, body, _) => MoveFree(body)
    case New(_, count) => MoveFree(count)
    case Get(inst, _, index) => MoveFree(inst) && MoveFree(index)
    case Set(inst, _, index, val) => MoveFree(inst) && MoveFree(index) && MoveFree(val)
    case If(cond, thn, els) => MoveFree(cond) && MoveFree(thn) && MoveFree(els)
    case Let(_, val, body) => MoveFree(val) && MoveFree(body)
    case Pack(inst) => MoveFree(inst)
    case Unpack(json, _) => MoveFree(json)
    case Map(inst, _, _) => MoveFree(inst)
    case Filter(inst, _) => MoveFree(inst)
    case Metadata(tag, val, target) => MoveFree(tag) && MoveFree(val) && MoveFree(target)
    case _ => true
  }

  predicate AllMoveFree(es: Exprs) {
    match es
    case Nil => true
    case Cons(head, tail) => MoveFree(head) && AllMoveFree(tail)
  }

  /** Metadata and nested definitions that move nothing. */
  predicate Plain(e: Expr) {
    match e
    case Prim(_, args) => AllPlain(args)
    case Apply(_, args) => AllPlain(args)
    case Move(inner) => Plain(inner)
    case Borrow(inner) => Plain(inner)
    case MutBorrow(inner) => Plain(inner)
    case Define(_, _, body, _) => MoveFree(body)
    case New(_, count) => Plain(count)
    case Get(inst, _, index) => Plain(inst) && Plain(index)
    case Set(inst, _, index, val) => Plain(inst) && Plain(index) && Plain(val)
    case If(cond, thn, els) => Plain(cond) && Plain(thn) && Plain(els)
    case Let(_, val, body) => Plain(val) && Plain(body)
    case Pack(inst) => Plain(inst)
    case Unpack(json, _) => Plain(json)
    case Map(inst, _, _) => Plain(inst)
    case Filter(inst, _) => Plain(inst)
    case Metadata(tag, val, target) => MoveFree(tag) && MoveFree(val) && Plain(target)
    case Trap(attempt, fallback) => Plain(attempt) && Plain(fallback)
    case _ => true
  }

  predicate AllPlain(es: Exprs) {
    match es
    case Nil => true
    case Cons(head, tail) => Plain(head) && AllPlain(tail)
  }

  lemma {:induction false} MoveFreeKeeps(e: Expr, env: Env, st: States, sh: Shapes)
    requires |st| == |sh| && MoveFree(e)
    ensures Verify(e, env, st, sh).Ok? ==> Verify(e, env, st, sh).value == st
    decreases e
  {
    match e
    case Prim(_, args) => AllMoveFreeKeeps(args, env, st, sh);
    case Apply(_, args) => AllMoveFreeKeeps(args, env, st, sh);
    case Move(inner) => MoveFreeKeeps(inner, env, st, sh);
    case Borrow(inner) => MoveFreeKeeps(inner, env, st, sh);
    case MutBorrow(inner) => MoveFreeKeeps(inner, env, st, sh);
    case Define(_, _, body, _) => MoveFreeKeeps(body, env, st, sh);
    case New(_, count) => MoveFreeKeeps(count, env, st, sh);
    case Get(inst, _, index) => MoveFreeKeeps(inst, env, st, sh); MoveFreeKeeps(index, env, st, sh);
    case Set(inst, _, index, val) =>
      MoveFreeKeeps(inst, env, st, sh); MoveFreeKeeps(index, env, st, sh); MoveFreeKeeps(val, env, st, sh);
    case If(cond, thn, els) =>
      MoveFreeKeeps(cond, env, st, sh); MoveFreeKeeps(thn, env, st, sh); MoveFreeKeeps(els, env, st, sh);
    case Let(_, val, body) =>
      MoveFreeKeeps(val, env, st, sh);
      MoveFreeKeeps(body, env, st + [Available], sh + [InferShape(val, sh)]);
      assert (st + [Available])[..|st|] == st;
    case Pack(inst) => MoveFreeKeeps(inst, env, st, sh);
    case Unpack(json, _) => MoveFreeKeeps(json, env, st, sh);
    case Map(inst, _, _) => MoveFreeKeeps(inst, env, st, sh);
    case Filter(inst, _) => MoveFreeKeeps(inst, env, st, sh);
    case Metadata(tag, val, target) =>
      MoveFreeKeeps(tag, env, st, sh); MoveFreeKeeps(val, env, st, sh); MoveFreeKeeps(target, env, st, sh);
    case _ =>
  }

  lemma {:induction false} AllMoveFreeKeeps(es: Exprs, env: Env, st: States, sh: Shapes)
    requires |st| == |sh| && AllMoveFree(es)
    ensures VerifyAll(es, env, st, sh).Ok? ==> VerifyAll(es, env, st, sh).value == st
    decreases es
  {
    match es
    case Nil =>
    case Cons(head, tail) => MoveFreeKeeps(head, env, st, sh); AllMoveFreeKeeps(tail, env, st, sh);
  }

  /** Where metadata and nested definitions move nothing, stripping them off changes nothing. */
  lemma {:induction false} PlainStrip(e: Expr, env: Env, st: States, sh: Shapes)
    requires |st| == |sh| && Plain(e) && Verify(e, env, st, sh).Ok?
    ensures Verify(Strip(e), env, st, sh) == Verify(e, env, st, sh)
    decreases e, 1
  {
    hide FieldFound, InferShape, Kept;
    match e
    case Prim(_, args) => AllPlainStrip(args, env, st, sh);
    case Apply(_, args) => AllPlainStrip(args, env, st, sh);
    case Move(inner) => if !inner.DeBruijn? && !inner.Expand? { PlainStrip(inner, env, st, sh); }
    case Borrow(inner) => PlainStrip(inner, env, st, sh);
    case MutBorrow(inner) => PlainStrip(inner, env, st, sh);
    case Define(_, _, body, _) =>
      MoveFreeKeeps(body, env, st, sh);
      assert Verify(Integer(0), env, st, sh) == Ok(st);
    case New(_, count) => PlainStrip(count, env, st, sh);
    case Get(_, _, _) => PlainStripField(e, env, st, sh);
    case Set(_, _, _, _) => PlainStripField(e, env, st, sh);
    case If(_, _, _) => PlainStripIf(e, env, st, sh);
    case Let(_, _, _) => PlainStripLet(e, env, st, sh);
    case Pack(inst) => StripShape(inst, sh); PlainStrip(inst, env, st, sh);
    case Unpack(json, _) => PlainStrip(json, env, st, sh);
    case Map(inst, _, _) => StripShape(inst, sh); PlainStrip(inst, env, st, sh);
    case Filter(inst, _) => StripShape(inst, sh); PlainStrip(inst, env, st, sh);
    case Metadata(tag, val, target) =>
      MoveFreeKeeps(tag, env, st, sh);
      MoveFreeKeeps(val, env, st, sh);
      PlainStrip(target, env, st, sh);
      assert Verify(Integer(0), env, st, sh) == Ok(st);
    case Trap(_, _) => PlainStripTrap(e, env, st, sh);
    case _ =>
  }

  lemma {:induction false} PlainStripField(e: Expr, env: Env, st: States, sh: Shapes)
    requires (e.Get? || e.Set?) && |st| == |sh| && Plain(e) && Verify(e, env, st, sh).Ok?
    ensures Verify(Strip(e), env, st, sh) == Verify(e, env, st, sh)
    decreases e, 0
  {
    hide FieldFound, InferShape;
    StripShape(e.inst, sh);
    PlainStrip(e.inst, env, st, sh);
    var st1 := Verify(e.inst, env, st, sh).value;
    PlainStrip(e.index, env, st1, sh);
    if e.Set? { PlainStrip(e.val, env, Verify(e.index, env, st1, sh).value, sh); }
  }

  lemma {:induction false} PlainStripIf(e: Expr, env: Env, st: States, sh: Shapes)
    requires e.If? && |st| == |sh| && Plain(e) && Verify(e, env, st, sh).Ok?
    ensures Verify(Strip(e), env, st, sh) == Verify(e, env, st, sh)
    decreases e, 0
  {
    PlainStrip(e.cond, env, st, sh);
    PlainStrip(e.thn, env, Verify(e.cond, env, st, sh).value, sh);
    PlainStrip(e.els, env, Verify(e.cond, env, st, sh).value, sh);
  }

  lemma {:induction false} PlainStripLet(e: Expr, env: Env, st: States, sh: Shapes)
    requires e.Let? && |st| == |sh| && Plain(e) && Verify(e, env, st, sh).Ok?
    ensures Verify(Strip(e), env, st, sh) == Verify(e, env, st, sh)
    decreases e, 0
  {
    hide InferShape;
    StripShape(e.val, sh);
    PlainStrip(e.val, env, st, sh);
    PlainStrip(e.body, env, Verify(e.val, env, st, sh).value + [Available], sh + [InferShape(e.val, sh)]);
  }

  lemma {:induction false} PlainStripTrap(e: Expr, env: Env, st: States, sh: Shapes)
    requires e.Trap? && |st| == |sh| && Plain(e) && Verify(e, env, st, sh).Ok?
    ensures Verify(Strip(e), env, st, sh) == Verify(e, env, st, sh)
    decreases e, 0
  {
    hide Kept;
    PlainStrip(e.attempt, env, AllBorrowed(|Kept(st, sh)|), Kept(st, sh));
    PlainStrip(e.fallback, env, AllBorrowed(|Kept(st, sh)|), Kept(st, sh));
  }

  lemma {:induction false} AllPlainStrip(es: Exprs, env: Env, st: States, sh: Shapes)
    requires |st| == |sh| && AllPlain(es) && VerifyAll(es, env, st, sh).Ok?
    ensures VerifyAll(StripAll(es), env, st, sh) == VerifyAll(es, env, st, sh)
    decreases es, 0
  {
    match es
    case Nil =>
    case Cons(head, tail) =>
      PlainStrip(head, env, st, sh);
      AllPlainStrip(tail, env, Verify(head, env, st, sh).value, sh);
  }

  /** The generator gets through all such code that the checker accepts, and both leave the slots in the
      same states. */
  lemma Agreement(e: Expr, env: Env, st: States, sh: Shapes, ids: seq<nat>, next: nat)
    requires |st| == |sh| == |ids| && Plain(e) && Verify(e, env, st, sh).Ok?
    ensures Gen(e, env, st, sh, ids, next).Ok?
    ensures Gen(e, env, st, sh, ids, next).value.st == Verify(e, env, st, sh).value
  {
    PlainStrip(e, env, st, sh);
    AcceptedCompiles(e, env, st, sh, ids, next);
  }

  // ----- Code whose metadata moves -----

  function MovingMetadata(): Expr {
    Metadata(Expr.Move(DeBruijn(0)), Text(""), Integer(0))
  }

  /** `M > x "" 0` alone is harmless: it gets through, and `x`, which the checker takes to be moved, stays
      where it is. */
  lemma MovingMetadataAlone(env: Env)
    ensures Verify(MovingMetadata(), env, [Available], [None]) == Ok([Moved])
    ensures Verify(Strip(MovingMetadata()), env, [Available], [None]) == Ok([Available])
    ensures Answer(Gen(MovingMetadata(), env, [Available], [None], [0], 1)) == Ok([Available])
  {
    assert [Available][0 := Moved] == [Moved];
    assert Verify(Expr.Move(DeBruijn(0)), env, [Available], [None]) == Ok([Moved]);
    assert Verify(Integer(0), env, [Available], [None]) == Ok([Available]);
    AcceptedCompiles(MovingMetadata(), env, [Available], [None], [0], 1);
  }

  /** In one branch, with `> x` in the other, the checker accepts it, refuses it stripped, and the
      generator aborts on it. */
  lemma MovingMetadataDisagrees(env: Env)
    ensures var e := If(Integer(1), MovingMetadata(), Expr.Move(DeBruijn(0)));
      && Verify(e, env, [Available], [None]).Ok?
      && Verify(Strip(e), env, [Available], [None]) == Err(E009)
      && Gen(e, env, [Available], [None], [0], 1) == Err(E009)
  {
    var e := If(Integer(1), MovingMetadata(), Expr.Move(DeBruijn(0)));
    MovingMetadataAlone(env);
    assert [Available][0 := Moved] == [Moved];
    assert Verify(Expr.Move(DeBruijn(0)), env, [Available], [None]) == Ok([Moved]);
    assert [Available] != [Moved] by { assert [Available][0] != [Moved][0]; }
    assert Strip(e) == If(Integer(1), Strip(MovingMetadata()), Expr.Move(DeBruijn(0)));
    AcceptedCompiles(e, env, [Available], [None], [0], 1);
  }

  // ----- Whole functions -----

  function Params(n: nat): (r: seq<nat>) {
    seq(n, i => i)
  }

  function ParamLedger(n: nat): Ledger {
    Ledger(set id | id in Params(n), {})
  }

  /** How often a path consumes `id`, by a move or by a drop. */
  function Consumptions(tr: seq<Event>, id: nat): nat {
    if tr == [] then 0 else (if tr[0] == Taken(id) || tr[0] == Dropped(id) then 1 else 0) + Consumptions(tr[1..], id)
  }

  /** A disciplined path consumes a value that was live at its start once if it is not live at its end,
      and never otherwise. */
  lemma {:induction false} ConsumedOnce(tr: seq<Event>, l: Ledger, id: nat)
    requires Follow(tr, l).Some? && l.live !! l.spent
    ensures Follow(tr, l).value.live !! Follow(tr, l).value.spent
    ensures Consumptions(tr, id) <= 1
    ensures id in l.live ==> (Consumptions(tr, id) == 1 <==> id !in Follow(tr, l).value.live)
    ensures id in l.spent ==> Consumptions(tr, id) == 0 && id in Follow(tr, l).value.spent
    decreases |tr|
  {
    if tr != [] {
      match tr[0]
      case Bound(x) => ConsumedOnce(tr[1..], l.(live := l.live + {x}), id);
      case Used(_) => ConsumedOnce(tr[1..], l, id);
      case Taken(x) => ConsumedOnce(tr[1..], Ledger(l.live - {x}, l.spent + {x}), id);
      case Dropped(x) => ConsumedOnce(tr[1..], Ledger(l.live - {x}, l.spent + {x}), id);
      case ScopeEnd(_) => ConsumedOnce(tr[1..], l, id);
    }
  }

  /** The checker and the generator on the body of a function with `n` parameters. */
  function Checked(body: Expr, env: Env, n: nat): (r: Result<States>)
    ensures r.Ok? ==> |r.value| == n
  {
    Verify(body, env, seq(n, _ => Available), seq(n, _ => None))
  }

  function Compiled(body: Expr, env: Env, n: nat): Result<Gened> {
    Gen(body, env, seq(n, _ => Available), seq(n, _ => None), Params(n), n)
  }

  /** The drops behind the body of a function: of each parameter that is still available. */
  function ParamDrops(st: States): seq<Event> {
    if st == [] then []
    else ParamDrops(st[..|st| - 1]) + if st[|st| - 1].Available? then [Dropped(|st| - 1)] else []
  }

  /** `tr` is what happens on some run of a function that was compiled to `g`. */
  ghost predicate IsFunctionPath(g: Gened, tr: seq<Event>, aborted: bool) {
    if aborted then IsPath(g.code, tr, true)
    else exists body :: IsPath(g.code, body, false) && tr == body + ParamDrops(g.st)
  }

  /** Every path through a compiled body: no value is read or moved after its move, and none is consumed
      twice.  A complete path moves a parameter exactly if it ends up moved, and drops none. */
  lemma BodySound(body: Expr, env: Env, n: nat, tr: seq<Event>, aborted: bool)
    requires Checked(Strip(body), env, n).Ok?
    requires Compiled(body, env, n).Ok? ==> IsPath(Compiled(body, env, n).value.code, tr, aborted)
    ensures Answer(Compiled(body, env, n)) == Checked(Strip(body), env, n)
    ensures Follow(tr, ParamLedger(n)).Some?
    ensures forall id :: Consumptions(tr, id) <= 1
    ensures !aborted ==>
      var st := Checked(Strip(body), env, n).value; var l := Follow(tr, ParamLedger(n)).value;
      forall i | 0 <= i < n ::
        && (i in l.live <==> st[i].Available?) && (st[i].Available? || st[i].Moved?)
        && (st[i].Moved? <==> Consumptions(tr, i) == 1)
        && Dropped(i) !in tr
  {
    hide Verify, Strip, Gen, IsPath, Follow, Consumptions;
    var st, sh, l := seq(n, _ => Available), seq(n, _ => None), ParamLedger(n);
    StrippedCompiles(body, env, st, sh, Params(n), n);
    assert IdsOk(Params(n), n);
    GenSound(body, env, st, sh, Params(n), n);
    var g := Compiled(body, env, n).value;
    assert forall i | 0 <= i < n :: Params(n)[i] in Params(n);
    assert Fits(l, st, Params(n), n);
    assert PathOk(tr, aborted, l, st, g.st, Params(n), n, g.next);
    forall id ensures Consumptions(tr, id) <= 1 { ConsumedOnce(tr, l, id); }
    if !aborted {
      forall i | 0 <= i < n
        ensures (g.st[i].Moved? <==> Consumptions(tr, i) == 1) && Dropped(i) !in tr
        ensures (i in Follow(tr, l).value.live <==> g.st[i].Available?) && (g.st[i].Available? || g.st[i].Moved?)
      {
        ConsumedOnce(tr, l, i);
        assert Params(n)[i] == i;
        assert Later(st, g.st) && st[i] == Available;
      }
    }
  }

  /** The drops behind the body consume exactly the parameters that are left. */
  lemma {:induction false} DropsFollow(st: States, l: Ledger)
    requires forall i | 0 <= i < |st| :: i in l.live <==> st[i].Available?
    ensures var r := Follow(ParamDrops(st), l); r.Some? && forall i | 0 <= i < |st| :: i !in r.value.live
    decreases |st|
  {
    if st != [] {
      var k := |st| - 1;
      DropsFollow(st[..k], l);
      DropsLeave(st[..k], l, k);
      FollowConcat(ParamDrops(st[..k]), if st[k].Available? then [Dropped(k)] else [], l);
      assert [Dropped(k)][1..] == [];
    }
  }

  lemma {:induction false} DropsMembers(st: States)
    ensures forall e | e in ParamDrops(st) :: e.Dropped? && e.id < |st| && st[e.id].Available?
    ensures forall i: nat | i < |st| && st[i].Available? :: Dropped(i) in ParamDrops(st)
    decreases |st|
  {
    if st != [] {
      DropsMembers(st[..|st| - 1]);
    }
  }

  /** Dropping some parameters leaves the others alone. */
  lemma {:induction false} DropsLeave(st: States, l: Ledger, x: nat)
    requires Follow(ParamDrops(st), l).Some? && x >= |st|
    ensures x in Follow(ParamDrops(st), l).value.live <==> x in l.live
    decreases |st|
  {
    if st != [] {
      var k := |st| - 1;
      FollowConcat(ParamDrops(st[..k]), if st[k].Available? then [Dropped(k)] else [], l);
      DropsLeave(st[..k], l, x);
      assert [Dropped(k)][1..] == [];
    }
  }

  /** Affine soundness.  If the checker accepts the stripped body of a function with `n` parameters, then
      the function compiles, and on every path, complete or aborted, no value is used after it was consumed
      and none is consumed twice.  On every complete path each parameter is consumed exactly once: by its
      move if the checker says that it is moved, and by the drop behind the body otherwise. */
  lemma AffineSoundness(body: Expr, env: Env, n: nat, tr: seq<Event>, aborted: bool)
    requires Checked(Strip(body), env, n).Ok?
    requires Compiled(body, env, n).Ok? ==> IsFunctionPath(Compiled(body, env, n).value, tr, aborted)
    ensures Answer(Compiled(body, env, n)) == Checked(Strip(body), env, n)
    ensures Follow(tr, ParamLedger(n)).Some?
    ensures forall id :: Consumptions(tr, id) <= 1
    ensures !aborted ==>
      var st := Checked(Strip(body), env, n).value;
      forall i | 0 <= i < n ::
        && Consumptions(tr, i) == 1
        && (Taken(i) in tr <==> st[i].Moved?) && (Dropped(i) in tr <==> st[i].Available?)
  {
    hide Verify, Strip, Gen, IsPath, Follow, Consumptions, ParamDrops;
    var st, sh, l := seq(n, _ => Available), seq(n, _ => None), ParamLedger(n);
    StrippedCompiles(body, env, st, sh, Params(n), n);
    var g := Compiled(body, env, n).value;
    if aborted {
      BodySound(body, env, n, tr, true);
    } else {
      var inner :| IsPath(g.code, inner, false) && tr == inner + ParamDrops(g.st);
      BodySound(body, env, n, inner, false);
      var l1 := Follow(inner, l).value;
      DropsFollow(g.st, l1);
      DropsMembers(g.st);
      FollowConcat(inner, ParamDrops(g.st), l);
      forall id ensures Consumptions(tr, id) <= 1 { ConsumedOnce(tr, l, id); }
      forall i | 0 <= i < n
        ensures Consumptions(tr, i) == 1
        ensures (Taken(i) in tr <==> g.st[i].Moved?) && (Dropped(i) in tr <==> g.st[i].Available?)
      {
        assert Params(n)[i] == i;
        ConsumedOnce(tr, l, i);
        ConsumedHow(tr, i);
        ConsumedHow(inner, i);
      }
    }
  }

  lemma {:induction false} ConsumedHow(tr: seq<Event>, id: nat)
    requires Consumptions(tr, id) <= 1
    ensures Consumptions(tr, id) == 1 <==> Taken(id) in tr || Dropped(id) in tr
    ensures !(Taken(id) in tr && Dropped(id) in tr)
    decreases |tr|
  {
    if tr != [] {
      assert tr == [tr[0]] + tr[1..];
      ConsumedHow(tr[1..], id);
    }
  }
}
