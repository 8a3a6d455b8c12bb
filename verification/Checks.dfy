/** What the ownership checker (`src/compiler/analysis/verify.rs`) asks of an expression: the list of its
    demands in the order of the walk, each with the error that answers it if it is not met. */
module Checks {
  import opened Ast
  import opened Ownership
  import opened Wrappers

  // ----- The shape of a value -----

  /** What a stack slot holds: a value of which the shape is given or unknown, or the value of a binding
      together with the slots that this value was built on. */
  datatype Binder = Given(shape: Option<string>) | Bound(val: Expr, scope: seq<Binder>)

  /** `e` is made as an instance of `shape`: at its allocation or its unpacking, seen through names,
      moves, borrows, and the loops that keep the shape of what they loop over. */
  predicate Shaped(e: Expr, scope: seq<Binder>, shape: string)
    decreases scope, e
  {
    || (e.New? && e.shape == shape)
    || (e.Unpack? && e.shape == shape)
    || ((e.Map? || e.Filter?) && Shaped(e.inst, scope, shape))
    || ((e.Move? || e.Borrow? || e.MutBorrow?) && Shaped(e.inner, scope, shape))
    || (e.DeBruijn? && e.idx < |scope| && Holds(scope[|scope| - 1 - e.idx], shape))
  }

  predicate Holds(b: Binder, shape: string)
    decreases b
  {
    match b
    case Given(known) => known == Some(shape)
    case Bound(val, scope) => Shaped(val, scope, shape)
  }

  /** The checker's table of shapes tells for every slot what its binder says. */
  ghost predicate Agree(sh: Shapes, scope: seq<Binder>) {
    |sh| == |scope| && forall i | 0 <= i < |sh| :: AgreeAt(sh[i], scope[i])
  }

  ghost predicate AgreeAt(known: Option<string>, b: Binder) {
    match known
    case Some(shape) => forall s :: Holds(b, s) <==> s == shape
    case None => forall s :: !Holds(b, s)
  }

  lemma {:induction false} InferExact(e: Expr, sh: Shapes, scope: seq<Binder>, shape: string)
    requires Agree(sh, scope)
    ensures InferShape(e, sh) == Some(shape) <==> Shaped(e, scope, shape)
    decreases e
  {
    match e
    case Map(inst, _, _) => InferExact(inst, sh, scope, shape);
    case Filter(inst, _) => InferExact(inst, sh, scope, shape);
    case Move(inner) => InferExact(inner, sh, scope, shape);
    case Borrow(inner) => InferExact(inner, sh, scope, shape);
    case MutBorrow(inner) => InferExact(inner, sh, scope, shape);
    case DeBruijn(idx) => if idx < |sh| { assert AgreeAt(sh[|sh| - 1 - idx], scope[|sh| - 1 - idx]); }
    case _ =>
  }

  /** A binding is known to the checker as what its value is made as. */
  lemma AgreeBound(val: Expr, sh: Shapes, scope: seq<Binder>)
    requires Agree(sh, scope)
    ensures Agree(sh + [InferShape(val, sh)], scope + [Bound(val, scope)])
  {
    var known, b := InferShape(val, sh), Bound(val, scope);
    forall s ensures Holds(b, s) <==> known == Some(s) {
      InferExact(val, sh, scope, s);
    }
    assert AgreeAt(known, b);
  }

  // ----- What is moved -----

  /** The slots of a stack of `n` that `e` moves. */
  function Taken(e: Expr, n: nat, env: Env): (slots: set<nat>)
    decreases e
  {
    match e
    case Move(DeBruijn(idx)) => if idx < n then {n - 1 - idx} else {}
    case Move(Expand(name)) => if name in env.expands then {env.expands[name]} else {}
    case Move(inner) => Taken(inner, n, env)
    case Borrow(inner) => Taken(inner, n, env)
    case MutBorrow(inner) => Taken(inner, n, env)
    case Prim(_, args) => AllTaken(args, n, env)
    case Apply(_, args) => AllTaken(args, n, env)
    case Define(_, _, body, _) => Taken(body, n, env)
    case New(_, count) => Taken(count, n, env)
    case Get(inst, _, index) => Taken(inst, n, env) + Taken(index, n, env)
    case Set(inst, _, index, val) => Taken(inst, n, env) + Taken(index, n, env) + Taken(val, n, env)
    case If(cond, thn, els) => Taken(cond, n, env) + Taken(thn, n, env) + Taken(els, n, env)
    case Let(_, val, body) => Taken(val, n, env) + (Taken(body, n + 1, env) - {n})
    case Pack(inst) => Taken(inst, n, env)
    case Unpack(json, _) => Taken(json, n, env)
    case Map(inst, _, _) => Taken(inst, n, env)
    case Filter(inst, _) => Taken(inst, n, env)
    case Metadata(tag, val, target) => Taken(tag, n, env) + Taken(val, n, env) + Taken(target, n, env)
    case _ => {}
  }

  function AllTaken(es: Exprs, n: nat, env: Env): (slots: set<nat>)
    decreases es
  {
    match es
    case Nil => {}
    case Cons(head, tail) => Taken(head, n, env) + AllTaken(tail, n, env)
  }

  /** The states of the slots once those in `slots` have been moved. */
  function Without(st: States, slots: set<nat>): (r: States)
    ensures |r| == |st|
  {
    seq(|st|, i requires 0 <= i < |st| => if i in slots then Moved else st[i])
  }

  /** The slots that a trap captures, lowest first. */
  function Captures(st: States): (slots: seq<nat>)
    ensures forall k | 0 <= k < |slots| :: slots[k] < |st|
  {
    if st == [] then []
    else
      var last := |st| - 1;
      Captures(st[..last]) + if st[last].Moved? then [] else [last]
  }

  function Select<T>(xs: seq<T>, slots: seq<nat>): (r: seq<T>)
    requires forall k | 0 <= k < |slots| :: slots[k] < |xs|
  {
    seq(|slots|, k requires 0 <= k < |slots| => xs[slots[k]])
  }

  lemma {:induction false} KeptSnoc<T>(st: States, xs: seq<T>, s: VarState, x: T)
    requires |st| == |xs|
    ensures Kept(st + [s], xs + [x]) == Kept(st, xs) + if s.Moved? then [] else [x]
    decreases |st|
  {
    if st != [] {
      KeptSnoc(st[1..], xs[1..], s, x);
      assert (st + [s])[1..] == st[1..] + [s] && (xs + [x])[1..] == xs[1..] + [x];
    }
  }

  /** The compacted stack of a trap holds the captured slots in order. */
  lemma {:induction false} KeptCaptures<T>(st: States, xs: seq<T>)
    requires |st| == |xs|
    ensures Kept(st, xs) == Select(xs, Captures(st))
    decreases |st|
  {
    if st != [] {
      var last := |st| - 1;
      KeptCaptures(st[..last], xs[..last]);
      KeptSnoc(st[..last], xs[..last], st[last], xs[last]);
      assert st[..last] + [st[last]] == st && xs[..last] + [xs[last]] == xs;
    }
  }

  // ----- The demands -----

  datatype Demand =
    | InScope(slot: nat, st: States)
    | Alive(slot: nat, st: States)
    | NotGone(slot: nat, st: States)
    | NotLent(slot: nat, st: States)
    | NameKnown(name: string)
    | ParamKnown(name: string)
    | CalledByName(func: Expr)
    | CalleeKnown(name: string)
    | ShapeNamed(shape: string)
    | ShapeMade(inst: Expr, scope: seq<Binder>)
    | FieldThere(inst: Expr, scope: seq<Binder>, field: string)
    | SameEnds(thn: States, els: States)

  ghost predicate Met(d: Demand, env: Env) {
    match d
    case InScope(slot, st) => slot < |st|
    case Alive(slot, st) => slot < |st| ==> st[slot] != Moved
    case NotGone(slot, st) => slot < |st| ==> st[slot] != Moved
    case NotLent(slot, st) => slot < |st| ==> st[slot] != Borrowed
    case NameKnown(name) => name in env.functions
    case ParamKnown(name) => name in env.expands
    case CalledByName(func) => func.Identifier?
    case CalleeKnown(name) => name in env.functions
    case ShapeNamed(shape) => shape in env.shapes
    case ShapeMade(inst, scope) => exists shape :: Shaped(inst, scope, shape) && shape in env.shapes
    case FieldThere(inst, scope, field) =>
      || (exists shape :: Shaped(inst, scope, shape) && Declares(env, shape, field))
      || ((forall shape :: !Shaped(inst, scope, shape)) && exists shape :: Declares(env, shape, field))
    case SameEnds(thn, els) => thn == els
  }

  predicate Declares(env: Env, shape: string, field: string) {
    shape in env.shapes && exists k | 0 <= k < |env.shapes[shape]| :: env.shapes[shape][k] == field
  }

  function Code(d: Demand): Error {
    match d
    case InScope(_, _) => E003
    case Alive(_, _) => E004
    case NotGone(_, _) => E005
    case NotLent(_, _) => E016
    case NameKnown(_) | ParamKnown(_) => E013
    case CalledByName(_) => E012
    case CalleeKnown(_) => E010
    case ShapeNamed(_) | ShapeMade(_, _) => E006
    case FieldThere(_, _, _) => E007
    case SameEnds(_, _) => E009
  }

  function SlotRead(slot: nat, st: States): seq<Demand> {
    [InScope(slot, st), Alive(slot, st)]
  }

  function SlotMove(slot: nat, st: States): seq<Demand> {
    [InScope(slot, st), NotGone(slot, st), NotLent(slot, st)]
  }

  /** The operator of a loop is looked up only if it is a name. */
  function Operator(func: Expr): seq<Demand> {
    if func.Identifier? then [CalleeKnown(func.name)] else []
  }

  /** The demands of `e` in the order of the walk: what is evaluated first is asked first. */
  function Demands(e: Expr, env: Env, st: States, scope: seq<Binder>): (ds: seq<Demand>)
    requires |st| == |scope|
    decreases e
  {
    var n := |st|;
    match e
    case Integer(_) | Text(_) | Shape(_, _, _) | Import(_, _, _) => []
    case DeBruijn(idx) => SlotRead(if idx < n then n - 1 - idx else n, st)
    case Identifier(name) => [NameKnown(name)]
    case Expand(name) => [ParamKnown(name)] + if name in env.expands then SlotRead(env.expands[name], st) else []
    case Move(DeBruijn(idx)) => SlotMove(if idx < n then n - 1 - idx else n, st)
    case Move(Expand(name)) => [ParamKnown(name)] + if name in env.expands then SlotMove(env.expands[name], st) else []
    case Move(inner) => Demands(inner, env, st, scope)
    case Borrow(inner) => Demands(inner, env, st, scope)
    case MutBorrow(inner) => Demands(inner, env, st, scope)
    case Prim(_, args) => AllDemands(args, env, st, scope)
    case Apply(func, args) =>
      [CalledByName(func)] + (if func.Identifier? then [CalleeKnown(func.name)] else []) + AllDemands(args, env, st, scope)
    case Define(_, _, body, _) => Demands(body, env, st, scope)
    case New(shape, count) => [ShapeNamed(shape)] + Demands(count, env, st, scope)
    case Get(inst, field, index) =>
      Demands(inst, env, st, scope) + Demands(index, env, Without(st, Taken(inst, n, env)), scope)
      + [FieldThere(inst, scope, field)]
    case Set(inst, field, index, val) =>
      var st1 := Without(st, Taken(inst, n, env));
      Demands(inst, env, st, scope) + Demands(index, env, st1, scope)
      + Demands(val, env, Without(st1, Taken(index, n, env)), scope) + [FieldThere(inst, scope, field)]
    case If(cond, thn, els) =>
      var st1 := Without(st, Taken(cond, n, env));
      Demands(cond, env, st, scope) + Demands(thn, env, st1, scope) + Demands(els, env, st1, scope)
      + [SameEnds(Without(st1, Taken(thn, n, env)), Without(st1, Taken(els, n, env)))]
    case Let(_, val, body) =>
      Demands(val, env, st, scope)
      + Demands(body, env, Without(st, Taken(val, n, env)) + [Available], scope + [Bound(val, scope)])
    case Pack(inst) => Demands(inst, env, st, scope) + [ShapeMade(inst, scope)]
    case Unpack(json, shape) => Demands(json, env, st, scope) + [ShapeNamed(shape)]
    case Map(inst, field, func) =>
      Demands(inst, env, st, scope) + [ShapeMade(inst, scope), FieldThere(inst, scope, field)] + Operator(func)
    case Filter(inst, func) => Demands(inst, env, st, scope) + [ShapeMade(inst, scope)] + Operator(func)
    case Metadata(tag, val, target) =>
      var st1 := Without(st, Taken(tag, n, env));
      Demands(tag, env, st, scope) + Demands(val, env, st1, scope)
      + Demands(target, env, Without(st1, Taken(val, n, env)), scope)
    case Trap(attempt, fallback) =>
      var inside := Select(scope, Captures(st));
      var lent := seq(|inside|, _ => Borrowed);
      Demands(attempt, env, lent, inside) + Demands(fallback, env, lent, inside)
  }

  function AllDemands(es: Exprs, env: Env, st: States, scope: seq<Binder>): (ds: seq<Demand>)
    requires |st| == |scope|
    decreases es
  {
    match es
    case Nil => []
    case Cons(head, tail) =>
      Demands(head, env, st, scope) + AllDemands(tail, env, Without(st, Taken(head, |st|, env)), scope)
  }

  ghost predicate AllMet(ds: seq<Demand>, env: Env) {
    forall k | 0 <= k < |ds| :: Met(ds[k], env)
  }

  /** The error of the first demand that is not met. */
  ghost function Fault(ds: seq<Demand>, env: Env): (r: Option<Error>)
    ensures r.None? <==> AllMet(ds, env)
    ensures r.Some? ==> exists k | 0 <= k < |ds| ::
      !Met(ds[k], env) && r.value == Code(ds[k]) && forall j | 0 <= j < k :: Met(ds[j], env)
  {
    if ds == [] then None
    else if !Met(ds[0], env) then Some(Code(ds[0]))
    else
      var r := Fault(ds[1..], env);
      assert forall k | 0 < k < |ds| :: ds[k] == ds[1..][k - 1];
      r
  }

  lemma {:induction false} FaultJoin(a: seq<Demand>, b: seq<Demand>, env: Env)
    ensures Fault(a + b, env) == if Fault(a, env).Some? then Fault(a, env) else Fault(b, env)
    decreases |a|
  {
    if a == [] {
      assert a + b == b;
    } else {
      assert (a + b)[1..] == a[1..] + b;
      FaultJoin(a[1..], b, env);
    }
  }

  /** What the demands say of a walk: the state behind it, or the error of the first that is not met. */
  ghost function Verdict(ds: seq<Demand>, env: Env, end: States): Result<States> {
    match Fault(ds, env)
    case None => Ok(end)
    case Some(error) => Err(error)
  }

  // ----- The checker asks exactly this -----

  lemma WithoutJoin(st: States, a: set<nat>, b: set<nat>)
    ensures Without(Without(st, a), b) == Without(st, a + b)
  {
  }

  lemma WithoutNone(st: States)
    ensures Without(st, {}) == st
  {
  }

  /** Leaving a scope drops the slot of its binding. */
  lemma WithoutScope(st: States, s: VarState, slots: set<nat>)
    ensures Without(st + [s], slots)[..|st|] == Without(st, slots - {|st|})
  {
  }

  ghost predicate Exact(e: Expr, env: Env, st: States, sh: Shapes, scope: seq<Binder>)
    requires |st| == |sh| == |scope|
  {
    Verify(e, env, st, sh) == Verdict(Demands(e, env, st, scope), env, Without(st, Taken(e, |st|, env)))
  }

  ghost predicate AllAsked(es: Exprs, env: Env, st: States, sh: Shapes, scope: seq<Binder>)
    requires |st| == |sh| == |scope|
  {
    VerifyAll(es, env, st, sh) == Verdict(AllDemands(es, env, st, scope), env, Without(st, AllTaken(es, |st|, env)))
  }

  /** One walk and then another. */
  lemma VerdictJoin(a: seq<Demand>, b: seq<Demand>, env: Env, mid: States, end: States)
    ensures Verdict(a + b, env, end) == if Verdict(a, env, mid).Ok? then Verdict(b, env, end) else Verdict(a, env, mid)
  {
    FaultJoin(a, b, env);
  }

  lemma VerdictNone(env: Env, st: States)
    ensures Verdict([], env, Without(st, {})) == Ok(st)
  {
    WithoutNone(st);
  }

  lemma VerdictOne(d: Demand, env: Env, end: States)
    ensures Verdict([d], env, end) == if Met(d, env) then Ok(end) else Err(Code(d))
  {
    hide Met;
    assert [d][1..] == [];
  }

  lemma VerdictTwo(d: Demand, d': Demand, env: Env, end: States)
    ensures Verdict([d, d'], env, end) == if !Met(d, env) then Err(Code(d)) else if Met(d', env) then Ok(end) else Err(Code(d'))
  {
    hide Met;
    assert [d, d'] == [d] + [d'];
    VerdictOne(d, env, end);
    VerdictOne(d', env, end);
    VerdictJoin([d], [d'], env, end, end);
  }

  lemma ReadExact(slot: nat, env: Env, st: States)
    ensures ReadSlot(st, slot) == Verdict(SlotRead(slot, st), env, Without(st, {}))
  {
    WithoutNone(st);
    VerdictTwo(InScope(slot, st), Alive(slot, st), env, st);
  }

  lemma MoveExact(slot: nat, env: Env, st: States)
    ensures MoveSlot(st, slot) == Verdict(SlotMove(slot, st), env, Without(st, {slot}))
  {
    var end := Without(st, {slot});
    assert SlotMove(slot, st) == [InScope(slot, st), NotGone(slot, st)] + [NotLent(slot, st)];
    VerdictTwo(InScope(slot, st), NotGone(slot, st), env, end);
    VerdictOne(NotLent(slot, st), env, end);
    VerdictJoin([InScope(slot, st), NotGone(slot, st)], [NotLent(slot, st)], env, end, end);
    if slot < |st| { assert st[slot := Moved] == end; }
  }

  lemma FieldExact(inst: Expr, field: string, env: Env, sh: Shapes, scope: seq<Binder>)
    requires Agree(sh, scope)
    ensures FieldFound(InferShape(inst, sh), field, env) <==> Met(FieldThere(inst, scope, field), env)
  {
    forall shape ensures InferShape(inst, sh) == Some(shape) <==> Shaped(inst, scope, shape) {
      InferExact(inst, sh, scope, shape);
    }
    forall shape ensures Declares(env, shape, field) <==> shape in env.shapes && field in env.shapes[shape] {
    }
  }

  lemma ShapeExact(inst: Expr, env: Env, sh: Shapes, scope: seq<Binder>)
    requires Agree(sh, scope)
    ensures ShapeKnown(InferShape(inst, sh), env) <==> Met(ShapeMade(inst, scope), env)
  {
    forall shape ensures InferShape(inst, sh) == Some(shape) <==> Shaped(inst, scope, shape) {
      InferExact(inst, sh, scope, shape);
    }
  }

  /** The checker meets the demands of an expression one after the other: it accepts if and only if all of
      them are met, with the moved slots gone, and else answers with the error of the first that is not. */
  lemma {:induction false} CheckerExact(e: Expr, env: Env, st: States, sh: Shapes, scope: seq<Binder>)
    requires |st| == |sh| == |scope| && Agree(sh, scope)
    ensures Exact(e, env, st, sh, scope)
    decreases e, 1
  {
    hide Agree, FieldFound, ShapeKnown, InferShape, Kept, Fault, Met, Without, ReadSlot, MoveSlot, Captures, Select;
    var n := |st|;
    match e
    case Integer(_) | Text(_) | Shape(_, _, _) | Import(_, _, _) => VerdictNone(env, st);
    case DeBruijn(idx) => ReadExact(SlotOf(idx, n), env, st);
    case Identifier(_) => NameExact(e, env, st, sh, scope);
    case Expand(_) => ExpandExact(e, env, st, sh, scope);
    case Prim(_, args) => AllExact(args, env, st, sh, scope);
    case Apply(_, _) => ApplyExact(e, env, st, sh, scope);
    case Move(_) => MovedExact(e, env, st, sh, scope);
    case Borrow(inner) => CheckerExact(inner, env, st, sh, scope);
    case MutBorrow(inner) => CheckerExact(inner, env, st, sh, scope);
    case Define(_, _, body, _) => CheckerExact(body, env, st, sh, scope);
    case New(_, _) => NewExact(e, env, st, sh, scope);
    case Get(_, _, _) => GetExact(e, env, st, sh, scope);
    case Set(_, _, _, _) => SetExact(e, env, st, sh, scope);
    case If(_, _, _) => IfExact(e, env, st, sh, scope);
    case Let(_, _, _) => LetExact(e, env, st, sh, scope);
    case Pack(_) => PackExact(e, env, st, sh, scope);
    case Unpack(_, _) => UnpackExact(e, env, st, sh, scope);
    case Map(_, _, _) => MapExact(e, env, st, sh, scope);
    case Filter(_, _) => FilterExact(e, env, st, sh, scope);
    case Metadata(_, _, _) => MetadataExact(e, env, st, sh, scope);
    case Trap(_, _) => TrapExact(e, env, st, sh, scope);
  }

  lemma {:induction false} MovedExact(e: Expr, env: Env, st: States, sh: Shapes, scope: seq<Binder>)
    requires e.Move? && |st| == |sh| == |scope| && Agree(sh, scope)
    ensures Exact(e, env, st, sh, scope)
    decreases e, 0
  {
    hide Agree, FieldFound, ShapeKnown, InferShape, Kept, Fault, Met, Without, ReadSlot, Captures, Select;
    match e.inner
    case DeBruijn(idx) => MoveExact(SlotOf(idx, |st|), env, st);
    case Expand(_) => ExpandExact(e, env, st, sh, scope);
    case _ => CheckerExact(e.inner, env, st, sh, scope);
  }

  lemma NameExact(e: Expr, env: Env, st: States, sh: Shapes, scope: seq<Binder>)
    requires |st| == |sh| == |scope| && e.Identifier?
    ensures Exact(e, env, st, sh, scope)
  {
    WithoutNone(st);
    VerdictOne(NameKnown(e.name), env, st);
  }

  lemma ExpandExact(e: Expr, env: Env, st: States, sh: Shapes, scope: seq<Binder>)
    requires |st| == |sh| == |scope| && (e.Expand? || (e.Move? && e.inner.Expand?))
    ensures Exact(e, env, st, sh, scope)
  {
    hide Fault, Without, ReadSlot, MoveSlot, SlotRead, SlotMove;
    var name := if e.Expand? then e.name else e.inner.name;
    var end := Without(st, Taken(e, |st|, env));
    VerdictOne(ParamKnown(name), env, end);
    if name in env.expands {
      var more := if e.Expand? then SlotRead(env.expands[name], st) else SlotMove(env.expands[name], st);
      ReadExact(env.expands[name], env, st);
      MoveExact(env.expands[name], env, st);
      VerdictJoin([ParamKnown(name)], more, env, end, end);
    } else {
      assert [ParamKnown(name)] + [] == [ParamKnown(name)];
    }
  }

  lemma {:induction false} ApplyExact(e: Expr, env: Env, st: States, sh: Shapes, scope: seq<Binder>)
    requires e.Apply? && |st| == |sh| == |scope| && Agree(sh, scope)
    ensures Exact(e, env, st, sh, scope)
    decreases e, 0
  {
    hide Agree, Fault, Without, Met;
    var Apply(func, args) := e;
    var end := Without(st, AllTaken(args, |st|, env));
    AllExact(args, env, st, sh, scope);
    CalleeExact(func, env, end);
    VerdictJoin([CalledByName(func)] + if func.Identifier? then [CalleeKnown(func.name)] else [],
                AllDemands(args, env, st, scope), env, end, end);
  }

  lemma CalleeExact(func: Expr, env: Env, end: States)
    ensures Verdict([CalledByName(func)] + (if func.Identifier? then [CalleeKnown(func.name)] else []), env, end)
            == if !func.Identifier? then Err(E012) else if func.name !in env.functions then Err(E010) else Ok(end)
  {
    hide Fault, Verdict;
    if func.Identifier? {
      VerdictTwo(CalledByName(func), CalleeKnown(func.name), env, end);
      assert [CalledByName(func)] + [CalleeKnown(func.name)] == [CalledByName(func), CalleeKnown(func.name)];
    } else {
      VerdictOne(CalledByName(func), env, end);
      assert [CalledByName(func)] + [] == [CalledByName(func)];
    }
  }

  lemma {:induction false} AllExact(es: Exprs, env: Env, st: States, sh: Shapes, scope: seq<Binder>)
    requires |st| == |sh| == |scope| && Agree(sh, scope)
    ensures AllAsked(es, env, st, sh, scope)
    decreases es, 1
  {
    hide Agree, Fault, Without, Met;
    match es
    case Nil => VerdictNone(env, st);
    case Cons(head, tail) =>
      var taken := Taken(head, |st|, env);
      var st1 := Without(st, taken);
      CheckerExact(head, env, st, sh, scope);
      AllExact(tail, env, st1, sh, scope);
      WithoutJoin(st, taken, AllTaken(tail, |st|, env));
      VerdictJoin(Demands(head, env, st, scope), AllDemands(tail, env, st1, scope), env, st1,
                  Without(st, AllTaken(es, |st|, env)));
  }

  /** Two walks in a row. */
  lemma {:induction false} TwoExact(a: Expr, b: Expr, env: Env, st: States, sh: Shapes, scope: seq<Binder>)
    requires |st| == |sh| == |scope| && Agree(sh, scope) && Exact(a, env, st, sh, scope)
    requires var st1 := Without(st, Taken(a, |st|, env)); |st1| == |sh| && Exact(b, env, st1, sh, scope)
    ensures var n, r1 := |st|, Verify(a, env, st, sh);
      Verdict(Demands(a, env, st, scope) + Demands(b, env, Without(st, Taken(a, n, env)), scope), env,
              Without(st, Taken(a, n, env) + Taken(b, n, env)))
      == if r1.Ok? then Verify(b, env, r1.value, sh) else r1
  {
    hide Fault, Met, Verify, Demands, Taken, Agree;
    var n := |st|;
    var st1 := Without(st, Taken(a, n, env));
    var end := Without(st, Taken(a, n, env) + Taken(b, n, env));
    WithoutJoin(st, Taken(a, n, env), Taken(b, n, env));
    VerdictJoin(Demands(a, env, st, scope), Demands(b, env, st1, scope), env, st1, end);
  }

  lemma {:induction false} NewExact(e: Expr, env: Env, st: States, sh: Shapes, scope: seq<Binder>)
    requires e.New? && |st| == |sh| == |scope| && Agree(sh, scope)
    ensures Exact(e, env, st, sh, scope)
    decreases e, 0
  {
    hide Agree, Fault, Without;
    var New(shape, count) := e;
    CheckerExact(count, env, st, sh, scope);
    VerdictOne(ShapeNamed(shape), env, st);
    VerdictJoin([ShapeNamed(shape)], Demands(count, env, st, scope), env, st, Without(st, Taken(e, |st|, env)));
  }

  lemma {:induction false} GetExact(e: Expr, env: Env, st: States, sh: Shapes, scope: seq<Binder>)
    requires e.Get? && |st| == |sh| == |scope| && Agree(sh, scope)
    ensures Exact(e, env, st, sh, scope)
    decreases e, 0
  {
    hide Agree, Fault, Without, Met, FieldFound, InferShape;
    var Get(inst, field, index) := e;
    var n := |st|;
    var taken := Taken(inst, n, env);
    CheckerExact(inst, env, st, sh, scope);
    CheckerExact(index, env, Without(st, taken), sh, scope);
    TwoExact(inst, index, env, st, sh, scope);
    FieldExact(inst, field, env, sh, scope);
    var end := Without(st, Taken(e, n, env));
    VerdictOne(FieldThere(inst, scope, field), env, end);
    VerdictJoin(Demands(inst, env, st, scope) + Demands(index, env, Without(st, taken), scope),
                [FieldThere(inst, scope, field)], env, end, end);
  }

  lemma {:induction false} SetExact(e: Expr, env: Env, st: States, sh: Shapes, scope: seq<Binder>)
    requires e.Set? && |st| == |sh| == |scope| && Agree(sh, scope)
    ensures Exact(e, env, st, sh, scope)
    decreases e, 0
  {
    hide Agree, Fault, Without, Met, FieldFound, InferShape;
    var Set(inst, field, index, val) := e;
    var n := |st|;
    var st1 := Without(st, Taken(inst, n, env));
    var st2 := Without(st1, Taken(index, n, env));
    CheckerExact(inst, env, st, sh, scope);
    CheckerExact(index, env, st1, sh, scope);
    CheckerExact(val, env, st2, sh, scope);
    TwoExact(inst, index, env, st, sh, scope);
    FieldExact(inst, field, env, sh, scope);
    WithoutJoin(st, Taken(inst, n, env), Taken(index, n, env));
    WithoutJoin(st, Taken(inst, n, env) + Taken(index, n, env), Taken(val, n, env));
    var end := Without(st, Taken(e, n, env));
    var first := Demands(inst, env, st, scope) + Demands(index, env, st1, scope);
    VerdictJoin(first, Demands(val, env, st2, scope), env, st2, end);
    VerdictOne(FieldThere(inst, scope, field), env, end);
    VerdictJoin(first + Demands(val, env, st2, scope), [FieldThere(inst, scope, field)], env, end, end);
  }

  lemma {:induction false} IfExact(e: Expr, env: Env, st: States, sh: Shapes, scope: seq<Binder>)
    requires e.If? && |st| == |sh| == |scope| && Agree(sh, scope)
    ensures Exact(e, env, st, sh, scope)
    decreases e, 0
  {
    hide Agree, Fault, Without, Met, FieldFound, InferShape, Shaped;
    var If(cond, thn, els) := e;
    var n := |st|;
    var a, b, c := Taken(cond, n, env), Taken(thn, n, env), Taken(els, n, env);
    var st1 := Without(st, a);
    var st2, st3 := Without(st1, b), Without(st1, c);
    CheckerExact(cond, env, st, sh, scope);
    CheckerExact(thn, env, st1, sh, scope);
    CheckerExact(els, env, st1, sh, scope);
    TwoExact(cond, thn, env, st, sh, scope);
    WithoutJoin(st, a, b);
    WithoutJoin(st, a + b, c);
    if st2 == st3 { WithoutTwice(st1, b, c); }
    var end := Without(st, Taken(e, n, env));
    var first := Demands(cond, env, st, scope) + Demands(thn, env, st1, scope);
    VerdictJoin(first, Demands(els, env, st1, scope), env, st2, end);
    VerdictJoin(Demands(cond, env, st, scope), Demands(thn, env, st1, scope), env, st1, st2);
    SameVerdict(st2, st3, env, end);
    VerdictJoin(first + Demands(els, env, st1, scope), [SameEnds(st2, st3)], env, end, end);
    assert Verdict(Demands(els, env, st1, scope), env, st3).Ok? == Verdict(Demands(els, env, st1, scope), env, end).Ok?;
  }

  lemma SameVerdict(thn: States, els: States, env: Env, end: States)
    ensures Verdict([SameEnds(thn, els)], env, end) == if thn == els then Ok(end) else Err(E009)
  {
    VerdictOne(SameEnds(thn, els), env, end);
  }

  lemma WithoutTwice(st: States, a: set<nat>, b: set<nat>)
    requires Without(st, a) == Without(st, b)
    ensures Without(Without(st, a), b) == Without(st, b)
  {
    assert forall i | 0 <= i < |st| :: Without(st, a)[i] == Without(st, b)[i];
  }

  lemma {:induction false} LetExact(e: Expr, env: Env, st: States, sh: Shapes, scope: seq<Binder>)
    requires e.Let? && |st| == |sh| == |scope| && Agree(sh, scope)
    ensures Exact(e, env, st, sh, scope)
    decreases e, 0
  {
    hide Fault, Without, Met, InferShape, Shaped, AgreeAt;
    var Let(_, val, body) := e;
    var n := |st|;
    var a, b := Taken(val, n, env), Taken(body, n + 1, env);
    var st1 := Without(st, a);
    AgreeBound(val, sh, scope);
    CheckerExact(val, env, st, sh, scope);
    CheckerExact(body, env, st1 + [Available], sh + [InferShape(val, sh)], scope + [Bound(val, scope)]);
    WithoutScope(st1, Available, b);
    WithoutJoin(st, a, b - {n});
    var inner := Demands(body, env, st1 + [Available], scope + [Bound(val, scope)]);
    VerdictJoin(Demands(val, env, st, scope), inner, env, st1, Without(st, Taken(e, n, env)));
    assert Verdict(inner, env, Without(st1 + [Available], b)).Ok? == Verdict(inner, env, Without(st, Taken(e, n, env))).Ok?;
  }

  /** Demands that follow those of `e`, with nothing moved in between. */
  lemma BehindExact(e: Expr, more: seq<Demand>, env: Env, st: States, sh: Shapes, scope: seq<Binder>)
    requires |st| == |sh| == |scope| && Exact(e, env, st, sh, scope)
    ensures var end := Without(st, Taken(e, |st|, env));
      Verdict(Demands(e, env, st, scope) + more, env, end)
      == if Verify(e, env, st, sh).Ok? then Verdict(more, env, end) else Verify(e, env, st, sh)
  {
    hide Fault, Met, Verify, Demands, Taken;
    var end := Without(st, Taken(e, |st|, env));
    VerdictJoin(Demands(e, env, st, scope), more, env, end, end);
  }

  lemma {:induction false} PackExact(e: Expr, env: Env, st: States, sh: Shapes, scope: seq<Binder>)
    requires e.Pack? && |st| == |sh| == |scope| && Agree(sh, scope)
    ensures Exact(e, env, st, sh, scope)
    decreases e, 0
  {
    hide Agree, Fault, Without, Met, ShapeKnown, InferShape;
    CheckerExact(e.inst, env, st, sh, scope);
    ShapeExact(e.inst, env, sh, scope);
    BehindExact(e.inst, [ShapeMade(e.inst, scope)], env, st, sh, scope);
    VerdictOne(ShapeMade(e.inst, scope), env, Without(st, Taken(e, |st|, env)));
  }

  lemma {:induction false} UnpackExact(e: Expr, env: Env, st: States, sh: Shapes, scope: seq<Binder>)
    requires e.Unpack? && |st| == |sh| == |scope| && Agree(sh, scope)
    ensures Exact(e, env, st, sh, scope)
    decreases e, 0
  {
    hide Agree, Fault, Without;
    CheckerExact(e.json, env, st, sh, scope);
    BehindExact(e.json, [ShapeNamed(e.shape)], env, st, sh, scope);
    VerdictOne(ShapeNamed(e.shape), env, Without(st, Taken(e, |st|, env)));
  }

  lemma OperatorExact(func: Expr, env: Env, end: States)
    ensures Verdict(Operator(func), env, end) == if OperatorKnown(func, env) then Ok(end) else Err(E010)
  {
    if func.Identifier? { VerdictOne(CalleeKnown(func.name), env, end); }
  }

  lemma TakenMap(e: Expr, n: nat, env: Env)
    requires e.Map?
    ensures Taken(e, n, env) == Taken(e.inst, n, env)
  {
  }

  lemma {:induction false} MapExact(e: Expr, env: Env, st: States, sh: Shapes, scope: seq<Binder>)
    requires e.Map? && |st| == |sh| == |scope| && Agree(sh, scope)
    ensures Exact(e, env, st, sh, scope)
    decreases e, 0
  {
    hide Agree, Fault, Without, Met, InferShape, Shaped, Operator, OperatorKnown, Taken;
    var Map(inst, field, func) := e;
    var end := Without(st, Taken(e, |st|, env));
    assert Taken(e, |st|, env) == Taken(inst, |st|, env) by { TakenMap(e, |st|, env); }
    CheckerExact(inst, env, st, sh, scope);
    var looked := [ShapeMade(inst, scope), FieldThere(inst, scope, field)];
    BehindExact(inst, looked, env, st, sh, scope);
    VerdictTwo(ShapeMade(inst, scope), FieldThere(inst, scope, field), env, end);
    ShapeExact(inst, env, sh, scope);
    FieldExact(inst, field, env, sh, scope);
    OperatorExact(func, env, end);
    VerdictJoin(Demands(inst, env, st, scope) + looked, Operator(func), env, end, end);
  }

  lemma {:induction false} FilterExact(e: Expr, env: Env, st: States, sh: Shapes, scope: seq<Binder>)
    requires e.Filter? && |st| == |sh| == |scope| && Agree(sh, scope)
    ensures Exact(e, env, st, sh, scope)
    decreases e, 0
  {
    hide Agree, Fault, Without, Met, InferShape, Operator, OperatorKnown, ShapeKnown;
    var Filter(inst, func) := e;
    var end := Without(st, Taken(e, |st|, env));
    CheckerExact(inst, env, st, sh, scope);
    BehindExact(inst, [ShapeMade(inst, scope)], env, st, sh, scope);
    VerdictOne(ShapeMade(inst, scope), env, end);
    ShapeExact(inst, env, sh, scope);
    OperatorExact(func, env, end);
    VerdictJoin(Demands(inst, env, st, scope) + [ShapeMade(inst, scope)], Operator(func), env, end, end);
  }

  lemma {:induction false} MetadataExact(e: Expr, env: Env, st: States, sh: Shapes, scope: seq<Binder>)
    requires e.Metadata? && |st| == |sh| == |scope| && Agree(sh, scope)
    ensures Exact(e, env, st, sh, scope)
    decreases e, 0
  {
    hide Agree, Fault, Without, Met;
    var Metadata(tag, val, target) := e;
    var n := |st|;
    var st1 := Without(st, Taken(tag, n, env));
    var st2 := Without(st1, Taken(val, n, env));
    CheckerExact(tag, env, st, sh, scope);
    CheckerExact(val, env, st1, sh, scope);
    CheckerExact(target, env, st2, sh, scope);
    TwoExact(tag, val, env, st, sh, scope);
    WithoutJoin(st, Taken(tag, n, env), Taken(val, n, env));
    WithoutJoin(st, Taken(tag, n, env) + Taken(val, n, env), Taken(target, n, env));
    VerdictJoin(Demands(tag, env, st, scope) + Demands(val, env, st1, scope), Demands(target, env, st2, scope),
                env, st2, Without(st, Taken(e, n, env)));
  }

  lemma AgreeCaptured(sh: Shapes, scope: seq<Binder>, slots: seq<nat>)
    requires Agree(sh, scope) && forall k | 0 <= k < |slots| :: slots[k] < |sh|
    ensures Agree(Select(sh, slots), Select(scope, slots))
  {
    hide AgreeAt;
  }

  lemma {:induction false} TrapExact(e: Expr, env: Env, st: States, sh: Shapes, scope: seq<Binder>)
    requires e.Trap? && |st| == |sh| == |scope| && Agree(sh, scope)
    ensures Exact(e, env, st, sh, scope)
    decreases e, 0
  {
    hide AgreeAt, Fault, Without, Met, Captures, Kept;
    var Trap(attempt, fallback) := e;
    KeptCaptures(st, sh);
    AgreeCaptured(sh, scope, Captures(st));
    var kept, inside := Select(sh, Captures(st)), Select(scope, Captures(st));
    var lent := seq(|inside|, _ => Borrowed);
    assert lent == AllBorrowed(|kept|);
    CheckerExact(attempt, env, lent, kept, inside);
    CheckerExact(fallback, env, lent, kept, inside);
    WithoutNone(st);
    VerdictJoin(Demands(attempt, env, lent, inside), Demands(fallback, env, lent, inside), env,
                Without(lent, Taken(attempt, |lent|, env)), st);
    var ds := Demands(fallback, env, lent, inside);
    assert Verdict(ds, env, st).Ok? == Verdict(ds, env, Without(lent, Taken(fallback, |lent|, env))).Ok?;
  }

  /** Code is accepted if and only if each of its demands is met: among them that every field it gets, sets
      or maps is declared in the shape of its instance, or in some shape where none is known. */
  lemma AcceptedExactly(e: Expr, env: Env, st: States, sh: Shapes, scope: seq<Binder>)
    requires |st| == |sh| == |scope| && Agree(sh, scope)
    ensures Verify(e, env, st, sh).Ok? <==> AllMet(Demands(e, env, st, scope), env)
    ensures Verify(e, env, st, sh).Ok? ==> Verify(e, env, st, sh).value == Without(st, Taken(e, |st|, env))
  {
    hide Verify, Demands, Met, Agree;
    CheckerExact(e, env, st, sh, scope);
    assert AllMet(Demands(e, env, st, scope), env) <==> Fault(Demands(e, env, st, scope), env).None?;
  }

  /** If all is in order up to a demand that is not met, its error is the answer: E007 for a field that is
      not declared, E006 for a shape that is not known. */
  lemma RefusedExactly(e: Expr, env: Env, st: States, sh: Shapes, scope: seq<Binder>, k: nat)
    requires |st| == |sh| == |scope| && Agree(sh, scope)
    requires var ds := Demands(e, env, st, scope);
      k < |ds| && !Met(ds[k], env) && forall j | 0 <= j < k :: Met(ds[j], env)
    ensures Verify(e, env, st, sh) == Err(Code(Demands(e, env, st, scope)[k]))
  {
    hide Verify, Demands, Met, Agree, Code;
    CheckerExact(e, env, st, sh, scope);
  }

  /** The demands of the body of a function of `n` parameters, whose shapes nobody knows. */
  function BodyDemands(body: Expr, env: Env, n: nat): seq<Demand> {
    Demands(body, env, seq(n, _ => Available), seq(n, _ => Given(None)))
  }

  lemma BodyExactly(body: Expr, env: Env, n: nat)
    ensures Verify(body, env, seq(n, _ => Available), seq(n, _ => None))
            == Verdict(BodyDemands(body, env, n), env, Without(seq(n, _ => Available), Taken(body, n, env)))
  {
    hide Verify, Demands, Verdict, Taken, Without;
    var st, sh, scope := seq(n, _ => Available), seq(n, _ => None), seq(n, _ => Given(None));
    forall i | 0 <= i < n ensures AgreeAt(sh[i], scope[i]) {
    }
    CheckerExact(body, env, st, sh, scope);
  }
}
