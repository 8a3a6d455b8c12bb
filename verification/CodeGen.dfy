/** The generator at work (`src/compiler/codegen/expr.rs`, `src/compiler/codegen/parallel.rs`): it walks an
    expression and rewrites the states of its stack items on the way, as `Generator.Gen` says. */
module Emitting {
  import opened Ast
  import opened Generator
  import opened Ownership
  import opened Soundness
  import opened Wrappers

  datatype StackItem = StackItem(value: nat, state: VarState, shape: Option<string>)

  function StatesOf(stack: seq<StackItem>): (st: States)
    ensures |st| == |stack|
  {
    seq(|stack|, i requires 0 <= i < |stack| => stack[i].state)
  }

  function ShapesOf(stack: seq<StackItem>): (sh: Shapes)
    ensures |sh| == |stack|
  {
    seq(|stack|, i requires 0 <= i < |stack| => stack[i].shape)
  }

  function ValuesOf(stack: seq<StackItem>): (ids: seq<nat>)
    ensures |ids| == |stack|
  {
    seq(|stack|, i requires 0 <= i < |stack| => stack[i].value)
  }

  /** What `Gen` says of an expression on a stack. */
  function GenOn(e: Expr, env: Env, stack: seq<StackItem>, next: nat): Result<Gened> {
    Gen(e, env, StatesOf(stack), ShapesOf(stack), ValuesOf(stack), next)
  }

  function GenAllOn(es: Exprs, env: Env, stack: seq<StackItem>, next: nat): Result<Gened> {
    GenAll(es, env, StatesOf(stack), ShapesOf(stack), ValuesOf(stack), next)
  }

  /** The body of a trap, on a stack of its captures. */
  function GenTask(e: Expr, env: Env, captures: seq<StackItem>, next: nat): Result<Gened> {
    Gen(e, env, AllBorrowed(|captures|), ShapesOf(captures), ValuesOf(captures), next)
  }

  lemma OnTask(e: Expr, env: Env, stack: seq<StackItem>, captures: seq<StackItem>, next: nat)
    requires StatesOf(stack) == AllBorrowed(|captures|)
    requires ShapesOf(stack) == ShapesOf(captures) && ValuesOf(stack) == ValuesOf(captures)
    ensures GenOn(e, env, stack, next) == GenTask(e, env, captures, next)
  {
  }

  lemma Pushed(stack: seq<StackItem>, item: StackItem)
    ensures StatesOf(stack + [item]) == StatesOf(stack) + [item.state]
    ensures ShapesOf(stack + [item]) == ShapesOf(stack) + [item.shape]
    ensures ValuesOf(stack + [item]) == ValuesOf(stack) + [item.value]
  {
  }

  lemma Popped(stack: seq<StackItem>)
    requires stack != []
    ensures var n := |stack| - 1;
      && StatesOf(stack[..n]) == StatesOf(stack)[..n] && ShapesOf(stack[..n]) == ShapesOf(stack)[..n]
      && ValuesOf(stack[..n]) == ValuesOf(stack)[..n]
  {
  }

  lemma Marked(stack: seq<StackItem>, slot: nat, state: VarState)
    requires slot < |stack|
    ensures var s := stack[slot := stack[slot].(state := state)];
      StatesOf(s) == StatesOf(stack)[slot := state] && ShapesOf(s) == ShapesOf(stack) && ValuesOf(s) == ValuesOf(stack)
  {
  }

  class CodeGen {
    const env: Env
    var stack: seq<StackItem>
    var next: nat

    constructor (env: Env, stack: seq<StackItem>, next: nat)
      ensures this.env == env && this.stack == stack && this.next == next
    {
      this.env, this.stack, this.next := env, stack, next;
    }

    /** What every walk promises, `g` being the answer of `Gen` on the stack it began with.  An error is one
        of the aborts of the generator. */
    twostate predicate Emitted(new g: Result<Gened>, new r: Result<Code>)
      reads this
    {
      && r == (if g.Ok? then Ok(g.value.code) else Err(g.error))
      && (g.Ok? ==> StatesOf(stack) == g.value.st && next == g.value.next
                    && ShapesOf(stack) == ShapesOf(old(stack)) && ValuesOf(stack) == ValuesOf(old(stack)))
    }

    method GenExpr(e: Expr) returns (r: Result<Code>)
      modifies this
      ensures Emitted(GenOn(e, env, old(stack), old(next)), r)
      decreases e, 1
    {
      hide FieldFound, InferShape, Kept, MoveSlot, StatesOf, ShapesOf, ValuesOf, SlotOf, ReadSlot;
      match e
      case Integer(_) | Text(_) | Identifier(_) => return Ok(Nop);
      case Shape(_, _, _) | Import(_, _, _) | Define(_, _, _, _) => return Ok(Nop);
      case DeBruijn(idx) => r := Read(SlotOf(idx, |stack|));
      case Expand(name) =>
        if name !in env.expands { return Err(E013); }
        r := Read(env.expands[name]);
      case Prim(_, args) => r := GenOperands(args);
      case Apply(func, args) =>
        if !func.Identifier? { return Err(E012); }
        r := GenOperands(args);
      case Move(inner) => r := GenMoved(inner);
      case Borrow(inner) => r := GenExpr(inner);
      case MutBorrow(inner) => r := GenExpr(inner);
      case New(shape, count) =>
        var code :- GenExpr(count);
        return if shape in env.shapes then Ok(code) else Err(E006);
      case Get(_, _, _) => r := GenGet(e);
      case Set(_, _, _, _) => r := GenSet(e);
      case If(_, _, _) => r := GenIf(e);
      case Let(_, _, _) => r := GenLet(e);
      case Pack(inst) =>
        var code :- GenExpr(inst);
        return if ShapeKnown(InferShape(inst, ShapesOf(stack)), env) then Ok(code) else Err(E006);
      case Unpack(json, shape) =>
        var code :- GenExpr(json);
        return if shape in env.shapes then Ok(code) else Err(E006);
      case Map(inst, _, _) =>
        var code :- GenExpr(inst);
        return if ShapeKnown(InferShape(inst, ShapesOf(stack)), env) then Ok(code) else Err(E006);
      case Filter(inst, _) =>
        var code :- GenExpr(inst);
        return if ShapeKnown(InferShape(inst, ShapesOf(stack)), env) then Ok(code) else Err(E006);
      case Metadata(_, _, target) => r := GenExpr(target);
      case Trap(attempt, fallback) => r := GenTrap(attempt, fallback);
    }

    method GenOperands(es: Exprs) returns (r: Result<Code>)
      modifies this
      ensures Emitted(GenAllOn(es, env, old(stack), old(next)), r)
      decreases es, 1
    {
      hide StatesOf, ShapesOf, ValuesOf;
      match es
      case Nil => return Ok(Nop);
      case Cons(head, tail) =>
        var first :- GenExpr(head);
        var others :- GenOperands(tail);
        return Ok(Then(first, others));
    }

    /** The `DeBruijn` and `Expand` cases. */
    method Read(slot: nat) returns (r: Result<Code>)
      ensures r == match GenRead(StatesOf(stack), slot, ValuesOf(stack), next)
                   case Ok(g) => Ok(g.code)
                   case Err(e) => Err(e)
    {
      if slot >= |stack| { return Err(E003); }
      if stack[slot].state.Moved? { return Err(E004); }
      return Ok(Use(stack[slot].value));
    }

    method GenMoved(inner: Expr) returns (r: Result<Code>)
      modifies this
      ensures Emitted(GenOn(Expr.Move(inner), env, old(stack), old(next)), r)
      decreases inner, 2
    {
      match inner
      case DeBruijn(idx) => r := MoveOut(SlotOf(idx, |stack|));
      case Expand(name) =>
        if name !in env.expands { return Err(E013); }
        r := MoveOut(env.expands[name]);
      case _ =>
        GenOfOther(inner, env, stack, next);
        r := GenExpr(inner);
    }

    method MoveOut(slot: nat) returns (r: Result<Code>)
      modifies this`stack
      ensures Emitted(GenMove(StatesOf(old(stack)), slot, ValuesOf(old(stack)), next), r)
    {
      if slot >= |stack| { return Err(E003); }
      if stack[slot].state.Moved? { return Err(E005); }
      if stack[slot].state.Borrowed? { return Err(E016); }
      r := Ok(Take(stack[slot].value));
      Marked(stack, slot, Moved);
      stack := stack[slot := stack[slot].(state := Moved)];
    }

    method GenGet(e: Expr) returns (r: Result<Code>)
      requires e.Get?
      modifies this
      ensures Emitted(GenOn(e, env, old(stack), old(next)), r)
      decreases e, 0
    {
      hide FieldFound, InferShape, StatesOf, ShapesOf, ValuesOf;
      var inst :- GenExpr(e.inst);
      var index :- GenExpr(e.index);
      return if FieldFound(InferShape(e.inst, ShapesOf(stack)), e.field, env) then Ok(Then(inst, index)) else Err(E007);
    }

    method GenSet(e: Expr) returns (r: Result<Code>)
      requires e.Set?
      modifies this
      ensures Emitted(GenOn(e, env, old(stack), old(next)), r)
      decreases e, 0
    {
      hide FieldFound, InferShape, StatesOf, ShapesOf, ValuesOf;
      var inst :- GenExpr(e.inst);
      var index :- GenExpr(e.index);
      var val :- GenExpr(e.val);
      return if FieldFound(InferShape(e.inst, ShapesOf(stack)), e.field, env) then Ok(Then(inst, Then(index, val))) else Err(E007);
    }

    /** The states are put back before the second branch, and must come out alike. */
    method GenIf(e: Expr) returns (r: Result<Code>)
      requires e.If?
      modifies this
      ensures Emitted(GenOn(e, env, old(stack), old(next)), r)
      decreases e, 0
    {
      hide StatesOf, ShapesOf, ValuesOf;
      var cond :- GenExpr(e.cond);
      var initial := stack;
      var thn :- GenExpr(e.thn);
      var trueStates := StatesOf(stack);
      stack := initial;
      var els :- GenExpr(e.els);
      return if trueStates == StatesOf(stack) then Ok(Then(cond, Branch(thn, els))) else Err(E009);
    }

    /** A value that was not moved when its scope ends is dropped there. */
    method GenLet(e: Expr) returns (r: Result<Code>)
      requires e.Let?
      modifies this
      ensures Emitted(GenOn(e, env, old(stack), old(next)), r)
      decreases e, 0
    {
      hide InferShape;
      var init :- GenExpr(e.val);
      var id, shape := next, InferShape(e.val, ShapesOf(stack));
      Pushed(stack, StackItem(id, Available, shape));
      stack, next := stack + [StackItem(id, Available, shape)], next + 1;
      var body :- GenExpr(e.body);
      var item := stack[|stack| - 1];
      Popped(stack);
      stack := stack[..|stack| - 1];
      return Ok(Scope(init, id, body, item.state.Available?));
    }

    method GenTrap(attempt: Expr, fallback: Expr) returns (r: Result<Code>)
      modifies this
      ensures Emitted(GenOn(Trap(attempt, fallback), env, old(stack), old(next)), r)
      decreases Trap(attempt, fallback), 0
    {
      hide StatesOf, ShapesOf, ValuesOf, Kept;
      var captures := Captures();
      var body :- GenTrapSubFn(attempt, captures);
      var otherwise :- GenTrapSubFn(fallback, captures);
      return Ok(Try(body, otherwise));
    }

    /** The stack items that are not moved. */
    method Captures() returns (captures: seq<StackItem>)
      ensures ShapesOf(captures) == Kept(StatesOf(stack), ShapesOf(stack))
      ensures ValuesOf(captures) == Kept(StatesOf(stack), ValuesOf(stack))
    {
      captures := [];
      var i := 0;
      while i < |stack|
        invariant i <= |stack|
        invariant ShapesOf(captures) + Kept(StatesOf(stack)[i..], ShapesOf(stack)[i..]) == Kept(StatesOf(stack), ShapesOf(stack))
        invariant ValuesOf(captures) + Kept(StatesOf(stack)[i..], ValuesOf(stack)[i..]) == Kept(StatesOf(stack), ValuesOf(stack))
      {
        if stack[i].state.Available? || stack[i].state.Borrowed? {
          Pushed(captures, stack[i]);
          captures := captures + [stack[i]];
        }
        i := i + 1;
      }
    }

    /** `gen_trap_sub_fn`: a function of its own, on a stack of its own that holds the captures. */
    method GenTrapSubFn(expr: Expr, captures: seq<StackItem>) returns (r: Result<Code>)
      modifies this`next
      ensures var g := GenTask(expr, env, captures, old(next));
        && r == (if g.Ok? then Ok(g.value.code) else Err(g.error))
        && (g.Ok? ==> next == g.value.next)
      decreases expr, 2
    {
      var taskStack: seq<StackItem> := [];
      var i := 0;
      while i < |captures|
        invariant i <= |captures| && next == old(next)
        invariant StatesOf(taskStack) == AllBorrowed(i)
        invariant ShapesOf(taskStack) == ShapesOf(captures)[..i] && ValuesOf(taskStack) == ValuesOf(captures)[..i]
      {
        Pushed(taskStack, captures[i].(state := Borrowed));
        taskStack := taskStack + [captures[i].(state := Borrowed)];
        i := i + 1;
      }
      assert ShapesOf(taskStack) == ShapesOf(captures) && ValuesOf(taskStack) == ValuesOf(captures);
      var task := new CodeGen(env, taskStack, next);
      OnTask(expr, env, taskStack, captures, next);
      var code :- task.GenExpr(expr);
      next := task.next;
      // A captured value is borrowed for good, so the drops behind the body of the function have nothing to drop.
      assert forall k | 0 <= k < |task.stack| :: StatesOf(task.stack)[k] == AllBorrowed(|captures|)[k] == Borrowed;
      return Ok(code);
    }
  }

  /** `gen_function`, from the check on: one available item for each parameter, the body, and a drop of each
      item that is still available. */
  method GenFunction(body: Expr, env: Env, n: nat) returns (r: Result<(Code, seq<Event>)>)
    ensures r == match Compiled(body, env, n) case Ok(g) => Ok((g.code, ParamDrops(g.st))) case Err(e) => Err(e)
  {
    hide Gen;
    var stack: seq<StackItem> := [];
    var i := 0;
    while i < n
      invariant i <= n && StatesOf(stack) == seq(i, _ => Available) && ShapesOf(stack) == seq(i, _ => None) && ValuesOf(stack) == Params(i)
    {
      Pushed(stack, StackItem(i, Available, None));
      stack := stack + [StackItem(i, Available, None)];
      i := i + 1;
    }
    var context := new CodeGen(env, stack, n);
    assert GenOn(body, env, stack, n) == Compiled(body, env, n);
    var code :- context.GenExpr(body);
    var drops: seq<Event> := [];
    i := 0;
    while i < |context.stack|
      invariant i <= |context.stack| && drops == ParamDrops(StatesOf(context.stack)[..i])
    {
      var st := StatesOf(context.stack);
      assert st[..i + 1][..i] == st[..i];
      if context.stack[i].state.Available? { drops := drops + [Dropped(i)]; }
      i := i + 1;
    }
    assert StatesOf(context.stack)[..i] == StatesOf(context.stack);
    return Ok((code, drops));
  }

  /** Moving anything but a slot is just its evaluation. */
  lemma GenOfOther(inner: Expr, env: Env, stack: seq<StackItem>, next: nat)
    requires !inner.DeBruijn? && !inner.Expand?
    ensures GenOn(Expr.Move(inner), env, stack, next) == GenOn(inner, env, stack, next)
  {
  }
}
