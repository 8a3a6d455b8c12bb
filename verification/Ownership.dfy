/** The ownership checker (`src/compiler/analysis/verify.rs`) as a function of the checked expression
    and the states of the stack slots. */
module Ownership {
  import opened Ast
  import opened Wrappers

  /** The state of a stack slot.  The fourth state of the source, `MutBorrowed`, is never assigned. */
  datatype VarState = Available | Moved | Borrowed

  type States = seq<VarState>
  type Shapes = seq<Option<string>>

  datatype Error = E003 | E004 | E005 | E006 | E007 | E009 | E010 | E012 | E013 | E016

  datatype Result<+T> = Ok(value: T) | Err(error: Error) {
    predicate IsFailure() { Err? }
    function PropagateFailure<U>(): Result<U> requires Err? { Err(error) }
    function Extract(): T requires Ok? { value }
  }

  /** What is known of the whole module, and the absolute slots of the expand parameters. */
  datatype Env = Env(shapes: map<string, seq<string>>, functions: map<string, nat>, expands: map<string, nat>)

  /** The absolute slot of a De Bruijn index on a stack of `n` slots; `n` when there is none. */
  function SlotOf(idx: nat, n: nat): (slot: nat) {
    if idx < n then n - 1 - idx else n
  }

  function ReadSlot(st: States, slot: nat): Result<States> {
    if slot >= |st| then Err(E003)
    else if st[slot].Moved? then Err(E004)
    else Ok(st)
  }

  function MoveSlot(st: States, slot: nat): Result<States> {
    if slot >= |st| then Err(E003)
    else if st[slot].Moved? then Err(E005)
    else if st[slot].Borrowed? then Err(E016)
    else Ok(st[slot := Moved])
  }

  function InferShape(e: Expr, sh: Shapes): Option<string> {
    match e
    case New(shape, _) => Some(shape)
    case Unpack(_, shape) => Some(shape)
    case Map(inst, _, _) => InferShape(inst, sh)
    case Filter(inst, _) => InferShape(inst, sh)
    case DeBruijn(idx) => if idx < |sh| then sh[|sh| - 1 - idx] else None
    case Move(inner) => InferShape(inner, sh)
    case Borrow(inner) => InferShape(inner, sh)
    case MutBorrow(inner) => InferShape(inner, sh)
    case _ => None
  }

  predicate FieldFound(inferred: Option<string>, field: string, env: Env) {
    match inferred
    case Some(shape) => shape in env.shapes && field in env.shapes[shape]
    case None => exists shape | shape in env.shapes :: field in env.shapes[shape]
  }

  predicate ShapeKnown(inferred: Option<string>, env: Env) {
    inferred.Some? && inferred.value in env.shapes
  }

  /** The function operand of `map` and `flt` is looked up only if it is a name. */
  predicate OperatorKnown(func: Expr, env: Env) {
    func.Identifier? ==> func.name in env.functions
  }

  /** The entries of `xs` for the slots a trap captures: those that are not moved. */
  function Kept<T>(st: States, xs: seq<T>): (r: seq<T>)
    requires |st| == |xs|
  {
    if st == [] then []
    else if st[0].Moved? then Kept(st[1..], xs[1..])
    else [xs[0]] + Kept(st[1..], xs[1..])
  }

  lemma {:induction false} KeptSameLength<T, U>(st: States, xs: seq<T>, ys: seq<U>)
    requires |xs| == |st| == |ys|
    ensures |Kept(st, xs)| == |Kept(st, ys)|
  {
    if st != [] { KeptSameLength(st[1..], xs[1..], ys[1..]); }
  }

  /** Inside a trap every captured slot is borrowed, and the moved slots are gone. */
  function AllBorrowed(n: nat): States {
    seq(n, _ => Borrowed)
  }

  /** `verify_expr`: the states of the stack after `e`, or the first error. */
  function Verify(e: Expr, env: Env, st: States, sh: Shapes): (r: Result<States>)
    requires |st| == |sh|
    ensures r.Ok? ==> |r.value| == |st|
    decreases e
  {
    match e
    case Integer(_) | Text(_) | Shape(_, _, _) | Import(_, _, _) => Ok(st)
    case DeBruijn(idx) => ReadSlot(st, SlotOf(idx, |st|))
    case Identifier(name) => if name in env.functions then Ok(st) else Err(E013)
    case Expand(name) => if name in env.expands then ReadSlot(st, env.expands[name]) else Err(E013)
    case Prim(_, args) => VerifyAll(args, env, st, sh)
    case Apply(func, args) =>
      if !func.Identifier? then Err(E012)
      else if func.name !in env.functions then Err(E010)
      else VerifyAll(args, env, st, sh)
    case Move(inner) =>
      (match inner
       case DeBruijn(idx) => MoveSlot(st, SlotOf(idx, |st|))
       case Expand(name) => if name in env.expands then MoveSlot(st, env.expands[name]) else Err(E013)
       case _ => Verify(inner, env, st, sh))
    case Borrow(inner) => Verify(inner, env, st, sh)
    case MutBorrow(inner) => Verify(inner, env, st, sh)
    case Define(_, _, body, _) => Verify(body, env, st, sh)
    case New(shape, count) => if shape in env.shapes then Verify(count, env, st, sh) else Err(E006)
    case Get(inst, field, index) =>
      var st1 :- Verify(inst, env, st, sh);
      var st2 :- Verify(index, env, st1, sh);
      if FieldFound(InferShape(inst, sh), field, env) then Ok(st2) else Err(E007)
    case Set(inst, field, index, val) =>
      var st1 :- Verify(inst, env, st, sh);
      var st2 :- Verify(index, env, st1, sh);
      var st3 :- Verify(val, env, st2, sh);
      if FieldFound(InferShape(inst, sh), field, env) then Ok(st3) else Err(E007)
    case If(cond, thn, els) =>
      var st1 :- Verify(cond, env, st, sh);
      var st2 :- Verify(thn, env, st1, sh);
      var st3 :- Verify(els, env, st1, sh);
      if st2 == st3 then Ok(st3) else Err(E009)
    case Let(_, val, body) =>
      var st1 :- Verify(val, env, st, sh);
      var st2 :- Verify(body, env, st1 + [Available], sh + [InferShape(val, sh)]);
      Ok(st2[..|st|])
    case Pack(inst) =>
      var st1 :- Verify(inst, env, st, sh);
      if ShapeKnown(InferShape(inst, sh), env) then Ok(st1) else Err(E006)
    case Unpack(json, shape) =>
      var st1 :- Verify(json, env, st, sh);
      if shape in env.shapes then Ok(st1) else Err(E006)
    case Map(inst, field, func) =>
      var st1 :- Verify(inst, env, st, sh);
      if !ShapeKnown(InferShape(inst, sh), env) then Err(E006)
      else if field !in env.shapes[InferShape(inst, sh).value] then Err(E007)
      else if OperatorKnown(func, env) then Ok(st1) else Err(E010)
    case Filter(inst, func) =>
      var st1 :- Verify(inst, env, st, sh);
      if !ShapeKnown(InferShape(inst, sh), env) then Err(E006)
      else if OperatorKnown(func, env) then Ok(st1) else Err(E010)
    case Metadata(tag, val, target) =>
      var st1 :- Verify(tag, env, st, sh);
      var st2 :- Verify(val, env, st1, sh);
      Verify(target, env, st2, sh)
    case Trap(attempt, fallback) =>
      var innerShapes := Kept(st, sh);
      var inner := AllBorrowed(|innerShapes|);
      var _ :- Verify(attempt, env, inner, innerShapes);
      var _ :- Verify(fallback, env, inner, innerShapes);
      Ok(st)
  }

  function VerifyAll(es: Exprs, env: Env, st: States, sh: Shapes): (r: Result<States>)
    requires |st| == |sh|
    ensures r.Ok? ==> |r.value| == |st|
    decreases es
  {
    match es
    case Nil => Ok(st)
    case Cons(head, tail) =>
      var st1 :- Verify(head, env, st, sh);
      VerifyAll(tail, env, st1, sh)
  }

  /** Moving anything but a slot is just its evaluation. */
  lemma MoveOfOther(inner: Expr, env: Env, st: States, sh: Shapes)
    requires |st| == |sh| && !inner.DeBruijn? && !inner.Expand?
    ensures Verify(Expr.Move(inner), env, st, sh) == Verify(inner, env, st, sh)
  {
  }

  // ----- The checker itself -----

  datatype Outcome = Pass | Fail(error: Error) {
    predicate IsFailure() { Fail? }
    function PropagateFailure(): Outcome requires Fail? { this }
  }

  /** `VerificationContext`: the checker walks an expression and rewrites `stack` on the way. */
  class VerificationContext {
    const env: Env
    var stack: States
    var stackShapes: Shapes

    constructor (env: Env, stack: States, stackShapes: Shapes)
      ensures this.env == env && this.stack == stack && this.stackShapes == stackShapes
    {
      this.env, this.stack, this.stackShapes := env, stack, stackShapes;
    }

    /** What every walk promises, `r` being the answer of `Verify` on the state it began in. */
    twostate predicate Walked(r: Result<States>, outcome: Outcome)
      reads this
    {
      && |stack| == |stackShapes| == |old(stackShapes)|
      && outcome == (if r.Ok? then Pass else Fail(r.error))
      && (r.Ok? ==> stack == r.value && stackShapes == old(stackShapes))
    }

    method VerifyExpr(e: Expr) returns (outcome: Outcome)
      requires |stack| == |stackShapes|
      modifies this
      ensures Walked(Verify(e, env, old(stack), old(stackShapes)), outcome)
      decreases e, 1
    {
      hide FieldFound, OperatorKnown, InferShape, Kept, MoveSlot, SlotOf;
      match e
      case Integer(_) | Text(_) | Shape(_, _, _) | Import(_, _, _) =>
        return Pass;
      case DeBruijn(idx) =>
        outcome := Read(SlotOf(idx, |stack|));
      case Identifier(name) =>
        return if name in env.functions then Pass else Fail(E013);
      case Expand(name) =>
        if name !in env.expands { return Fail(E013); }
        outcome := Read(env.expands[name]);
      case Prim(_, args) =>
        outcome := VerifyExprs(args);
      case Apply(func, args) =>
        if !func.Identifier? { return Fail(E012); }
        if func.name !in env.functions { return Fail(E010); }
        outcome := VerifyExprs(args);
      case Move(inner) =>
        outcome := VerifyMove(inner);
      case Borrow(inner) =>
        outcome := VerifyExpr(inner);
      case MutBorrow(inner) =>
        outcome := VerifyExpr(inner);
      case Define(_, _, body, _) =>
        outcome := VerifyExpr(body);
      case New(shape, count) =>
        if shape !in env.shapes { return Fail(E006); }
        outcome := VerifyExpr(count);
      case Get(_, _, _) =>
        outcome := VerifyGet(e);
      case Set(_, _, _, _) =>
        outcome := VerifySet(e);
      case If(_, _, _) =>
        outcome := VerifyIf(e);
      case Let(_, _, _) =>
        outcome := VerifyLet(e);
      case Pack(inst) =>
        :- VerifyExpr(inst);
        return if ShapeKnown(InferShape(inst, stackShapes), env) then Pass else Fail(E006);
      case Unpack(json, shape) =>
        :- VerifyExpr(json);
        return if shape in env.shapes then Pass else Fail(E006);
      case Map(_, _, _) =>
        outcome := VerifyMap(e);
      case Filter(inst, func) =>
        :- VerifyExpr(inst);
        if !ShapeKnown(InferShape(inst, stackShapes), env) { return Fail(E006); }
        return if OperatorKnown(func, env) then Pass else Fail(E010);
      case Metadata(tag, val, target) =>
        :- VerifyExpr(tag);
        :- VerifyExpr(val);
        outcome := VerifyExpr(target);
      case Trap(attempt, fallback) =>
        outcome := VerifyTrap(attempt, fallback);
    }

    method VerifyExprs(es: Exprs) returns (outcome: Outcome)
      requires |stack| == |stackShapes|
      modifies this
      ensures Walked(VerifyAll(es, env, old(stack), old(stackShapes)), outcome)
      decreases es, 1
    {
      match es
      case Nil => return Pass;
      case Cons(head, tail) =>
        :- VerifyExpr(head);
        outcome := VerifyExprs(tail);
    }

    method Read(slot: nat) returns (outcome: Outcome)
      ensures outcome == (if ReadSlot(stack, slot).Ok? then Pass else Fail(ReadSlot(stack, slot).error))
    {
      if slot >= |stack| { return Fail(E003); }
      return if stack[slot].Moved? then Fail(E004) else Pass;
    }

    method MoveOut(slot: nat) returns (outcome: Outcome)
      requires |stack| == |stackShapes|
      modifies this
      ensures Walked(MoveSlot(old(stack), slot), outcome)
    {
      if slot >= |stack| { return Fail(E003); }
      if stack[slot].Moved? { return Fail(E005); }
      if stack[slot].Borrowed? { return Fail(E016); }
      stack := stack[slot := Moved];
      return Pass;
    }

    method VerifyMove(inner: Expr) returns (outcome: Outcome)
      requires |stack| == |stackShapes|
      modifies this
      ensures Walked(Verify(Expr.Move(inner), env, old(stack), old(stackShapes)), outcome)
      decreases inner, 2
    {
      hide FieldFound, ShapeKnown, OperatorKnown, InferShape, Kept, MoveSlot, ReadSlot, SlotOf;
      match inner
      case DeBruijn(idx) => outcome := MoveOut(SlotOf(idx, |stack|));
      case Expand(name) =>
        if name !in env.expands { return Fail(E013); }
        outcome := MoveOut(env.expands[name]);
      case _ =>
        MoveOfOther(inner, env, stack, stackShapes);
        outcome := VerifyExpr(inner);
    }

    method VerifyGet(e: Expr) returns (outcome: Outcome)
      requires e.Get? && |stack| == |stackShapes|
      modifies this
      ensures Walked(Verify(e, env, old(stack), old(stackShapes)), outcome)
      decreases e, 0
    {
      hide FieldFound, InferShape;
      var Get(inst, field, index) := e;
      :- VerifyExpr(inst);
      :- VerifyExpr(index);
      return if FieldFound(InferShape(inst, stackShapes), field, env) then Pass else Fail(E007);
    }

    method VerifySet(e: Expr) returns (outcome: Outcome)
      requires e.Set? && |stack| == |stackShapes|
      modifies this
      ensures Walked(Verify(e, env, old(stack), old(stackShapes)), outcome)
      decreases e, 0
    {
      hide FieldFound, InferShape;
      var Set(inst, field, index, val) := e;
      :- VerifyExpr(inst);
      :- VerifyExpr(index);
      :- VerifyExpr(val);
      return if FieldFound(InferShape(inst, stackShapes), field, env) then Pass else Fail(E007);
    }

    method VerifyMap(e: Expr) returns (outcome: Outcome)
      requires e.Map? && |stack| == |stackShapes|
      modifies this
      ensures Walked(Verify(e, env, old(stack), old(stackShapes)), outcome)
      decreases e, 0
    {
      hide OperatorKnown, InferShape;
      var Map(inst, field, func) := e;
      :- VerifyExpr(inst);
      var inferred := InferShape(inst, stackShapes);
      if !ShapeKnown(inferred, env) { return Fail(E006); }
      if field !in env.shapes[inferred.value] { return Fail(E007); }
      return if OperatorKnown(func, env) then Pass else Fail(E010);
    }

    method VerifyLet(e: Expr) returns (outcome: Outcome)
      requires e.Let? && |stack| == |stackShapes|
      modifies this
      ensures Walked(Verify(e, env, old(stack), old(stackShapes)), outcome)
      decreases e, 0
    {
      var Let(_, val, body) := e;
      :- VerifyExpr(val);
      var shape := InferShape(val, stackShapes);
      stack, stackShapes := stack + [Available], stackShapes + [shape];
      outcome := VerifyExpr(body);
      stack, stackShapes := stack[..|stack| - 1], stackShapes[..|stackShapes| - 1];
    }

    method VerifyIf(e: Expr) returns (outcome: Outcome)
      requires e.If? && |stack| == |stackShapes|
      modifies this
      ensures Walked(Verify(e, env, old(stack), old(stackShapes)), outcome)
      decreases e, 0
    {
      var If(cond, thn, els) := e;
      :- VerifyExpr(cond);
      var initialStates, initialShapes := stack, stackShapes;
      :- VerifyExpr(thn);
      var thenStates := stack;
      stack, stackShapes := initialStates, initialShapes;
      :- VerifyExpr(els);
      return if thenStates == stack then Pass else Fail(E009);
    }

    method VerifyTrap(attempt: Expr, fallback: Expr) returns (outcome: Outcome)
      requires |stack| == |stackShapes|
      modifies this
      ensures Walked(Verify(Trap(attempt, fallback), env, old(stack), old(stackShapes)), outcome)
      decreases Trap(attempt, fallback), 0
    {
      hide FieldFound, ShapeKnown, OperatorKnown, InferShape, MoveSlot, ReadSlot, Kept;
      var capturedShapes := Captured();
      var attemptContext := new VerificationContext(env, AllBorrowed(|capturedShapes|), capturedShapes);
      :- attemptContext.VerifyExpr(attempt);
      var fallbackContext := new VerificationContext(env, AllBorrowed(|capturedShapes|), capturedShapes);
      :- fallbackContext.VerifyExpr(fallback);
      return Pass;
    }

    /** The loop over the stack that leaves out the moved slots. */
    method Captured() returns (capturedShapes: Shapes)
      requires |stack| == |stackShapes|
      ensures capturedShapes == Kept(stack, stackShapes)
    {
      capturedShapes := [];
      var i := 0;
      while i < |stack|
        invariant i <= |stack|
        invariant capturedShapes + Kept(stack[i..], stackShapes[i..]) == Kept(stack, stackShapes)
      {
        if !stack[i].Moved? { capturedShapes := capturedShapes + [stackShapes[i]]; }
        i := i + 1;
      }
    }
  }
}
