/** The stack discipline of the code generator (`src/compiler/codegen/expr.rs`,
    `src/compiler/codegen/parallel.rs`, `src/compiler/codegen/shape.rs`): which values the emitted code
    reads, moves and drops, on which paths, and why the checker's verdict speaks for all of them. */
module Generator {
  import opened Ast
  import opened Ownership
  import opened Wrappers

  /** The ownership effects of emitted code.  Values are numbered as they are bound.  `Scope` binds the
      value of `init` to `id`, and drops it at its end if `drop`; `Try` runs `fallback` after an abort
      of `body`. */
  datatype Code =
    | Nop
    | Use(id: nat)
    | Take(id: nat)
    | Then(first: Code, second: Code)
    | Branch(thn: Code, els: Code)
    | Scope(init: Code, id: nat, body: Code, drop: bool)
    | Try(body: Code, fallback: Code)

  /** The code of an expression, the states of the slots after it, and the next fresh number. */
  datatype Gened = Gened(code: Code, st: States, next: nat)

  /** The states a slot may go through. */
  ghost predicate Later(st: States, st': States) {
    && |st| == |st'|
    && forall i | 0 <= i < |st| :: st'[i] == st[i] || (st[i].Available? && st'[i].Moved?)
  }

  /** `gen_expr`, without parallel hoisting and template calls, for a stack whose slots hold `ids`. */
  function Gen(e: Expr, env: Env, st: States, sh: Shapes, ids: seq<nat>, next: nat): (r: Result<Gened>)
    requires |st| == |sh| == |ids|
    ensures r.Ok? ==> next <= r.value.next && Later(st, r.value.st)
    decreases e
  {
    match e
    case Integer(_) | Text(_) | Identifier(_) => Ok(Gened(Nop, st, next))
    case Shape(_, _, _) | Import(_, _, _) | Define(_, _, _, _) => Ok(Gened(Nop, st, next))
    case DeBruijn(idx) => GenRead(st, SlotOf(idx, |st|), ids, next)
    case Expand(name) => if name in env.expands then GenRead(st, env.expands[name], ids, next) else Err(E013)
    case Prim(_, args) => GenAll(args, env, st, sh, ids, next)
    case Apply(func, args) => if func.Identifier? then GenAll(args, env, st, sh, ids, next) else Err(E012)
    case Move(inner) =>
      (match inner
       case DeBruijn(idx) => GenMove(st, SlotOf(idx, |st|), ids, next)
       case Expand(name) => if name in env.expands then GenMove(st, env.expands[name], ids, next) else Err(E013)
       case _ => Gen(inner, env, st, sh, ids, next))
    case Borrow(inner) => Gen(inner, env, st, sh, ids, next)
    case MutBorrow(inner) => Gen(inner, env, st, sh, ids, next)
    case New(shape, count) =>
      var g :- Gen(count, env, st, sh, ids, next);
      if shape in env.shapes then Ok(g) else Err(E006)
    case Get(inst, field, index) =>
      var g1 :- Gen(inst, env, st, sh, ids, next);
      var g2 :- Gen(index, env, g1.st, sh, ids, g1.next);
      if FieldFound(InferShape(inst, sh), field, env) then Ok(g2.(code := Then(g1.code, g2.code))) else Err(E007)
    case Set(inst, field, index, val) =>
      var g1 :- Gen(inst, env, st, sh, ids, next);
      var g2 :- Gen(index, env, g1.st, sh, ids, g1.next);
      var g3 :- Gen(val, env, g2.st, sh, ids, g2.next);
      if FieldFound(InferShape(inst, sh), field, env) then Ok(g3.(code := Then(g1.code, Then(g2.code, g3.code)))) else Err(E007)
    case If(cond, thn, els) =>
      var g1 :- Gen(cond, env, st, sh, ids, next);
      var g2 :- Gen(thn, env, g1.st, sh, ids, g1.next);
      var g3 :- Gen(els, env, g1.st, sh, ids, g2.next);
      if g2.st == g3.st then Ok(g3.(code := Then(g1.code, Branch(g2.code, g3.code)))) else Err(E009)
    case Let(_, val, body) =>
      var g1 :- Gen(val, env, st, sh, ids, next);
      var g2 :- Gen(body, env, g1.st + [Available], sh + [InferShape(val, sh)], ids + [g1.next], g1.next + 1);
      Ok(Gened(Scope(g1.code, g1.next, g2.code, g2.st[|st|].Available?), g2.st[..|st|], g2.next))
    case Pack(inst) =>
      var g :- Gen(inst, env, st, sh, ids, next);
      if ShapeKnown(InferShape(inst, sh), env) then Ok(g) else Err(E006)
    case Unpack(json, shape) =>
      var g :- Gen(json, env, st, sh, ids, next);
      if shape in env.shapes then Ok(g) else Err(E006)
    case Map(inst, _, _) =>
      var g :- Gen(inst, env, st, sh, ids, next);
      if ShapeKnown(InferShape(inst, sh), env) then Ok(g) else Err(E006)
    case Filter(inst, _) =>
      var g :- Gen(inst, env, st, sh, ids, next);
      if ShapeKnown(InferShape(inst, sh), env) then Ok(g) else Err(E006)
    case Metadata(_, _, target) => Gen(target, env, st, sh, ids, next)
    case Trap(attempt, fallback) =>
      var innerShapes, innerIds := Kept(st, sh), Kept(st, ids);
      KeptSameLength(st, sh, ids);
      var inner := AllBorrowed(|innerShapes|);
      var g1 :- Gen(attempt, env, inner, innerShapes, innerIds, next);
      var g2 :- Gen(fallback, env, inner, innerShapes, innerIds, g1.next);
      Ok(Gened(Try(g1.code, g2.code), st, g2.next))
  }

  function GenAll(es: Exprs, env: Env, st: States, sh: Shapes, ids: seq<nat>, next: nat): (r: Result<Gened>)
    requires |st| == |sh| == |ids|
    ensures r.Ok? ==> next <= r.value.next && Later(st, r.value.st)
    decreases es
  {
    match es
    case Nil => Ok(Gened(Nop, st, next))
    case Cons(head, tail) =>
      var g1 :- Gen(head, env, st, sh, ids, next);
      var g2 :- GenAll(tail, env, g1.st, sh, ids, g1.next);
      Ok(g2.(code := Then(g1.code, g2.code)))
  }

  function GenRead(st: States, slot: nat, ids: seq<nat>, next: nat): (r: Result<Gened>)
    requires |st| == |ids|
    ensures r.Ok? ==> next <= r.value.next && Later(st, r.value.st)
  {
    var _ :- ReadSlot(st, slot);
    Ok(Gened(Use(ids[slot]), st, next))
  }

  function GenMove(st: States, slot: nat, ids: seq<nat>, next: nat): (r: Result<Gened>)
    requires |st| == |ids|
    ensures r.Ok? ==> next <= r.value.next && Later(st, r.value.st)
  {
    var st' :- MoveSlot(st, slot);
    Ok(Gened(Take(ids[slot]), st', next))
  }

  // ----- Paths -----

  datatype Event = Bound(id: nat) | Used(id: nat) | Taken(id: nat) | Dropped(id: nat) | ScopeEnd(id: nat)

  /** `tr` is what happens on some run of `c`; an aborted run may stop before any event. */
  ghost predicate IsPath(c: Code, tr: seq<Event>, aborted: bool)
    decreases c
  {
    || (aborted && tr == [])
    || match c
       case Nop => !aborted && tr == []
       case Use(id) => !aborted && tr == [Used(id)]
       case Take(id) => !aborted && tr == [Taken(id)]
       case Then(first, second) =>
         || (aborted && IsPath(first, tr, true))
         || exists tr1, tr2 :: IsPath(first, tr1, false) && IsPath(second, tr2, aborted) && tr == tr1 + tr2
       case Branch(thn, els) => IsPath(thn, tr, aborted) || IsPath(els, tr, aborted)
       case Scope(init, id, body, drop) =>
         || (aborted && IsPath(init, tr, true))
         || exists tr1, tr2 :: IsPath(init, tr1, false) && IsPath(body, tr2, aborted)
                               && tr == ScopeTrace(tr1, id, tr2, drop, aborted)
       case Try(body, fallback) =>
         || (!aborted && IsPath(body, tr, false))
         || exists tr1, tr2 :: IsPath(body, tr1, true) && IsPath(fallback, tr2, aborted) && tr == tr1 + tr2
  }

  /** The trace of a scope, from the traces of its parts. */
  function ScopeTrace(init: seq<Event>, id: nat, body: seq<Event>, drop: bool, aborted: bool): seq<Event> {
    init + ([Bound(id)] + (body + if aborted then [] else ScopeTail(id, drop)))
  }

  function ScopeTail(id: nat, drop: bool): seq<Event> {
    (if drop then [Dropped(id)] else []) + [ScopeEnd(id)]
  }

  /** The values that are bound and not yet consumed, and those that have been consumed. */
  datatype Ledger = Ledger(live: set<nat>, spent: set<nat>)

  /** The ownership discipline: a value is bound once, used only while live, moved or dropped only while
      live, and at the end of its scope it has been moved or dropped. */
  function Follow(tr: seq<Event>, l: Ledger): Option<Ledger>
    decreases |tr|
  {
    if tr == [] then Some(l) else
    match tr[0]
    case Bound(id) => if id in l.live + l.spent then None else Follow(tr[1..], l.(live := l.live + {id}))
    case Used(id) => if id in l.live then Follow(tr[1..], l) else None
    case Taken(id) => if id in l.live then Follow(tr[1..], Ledger(l.live - {id}, l.spent + {id})) else None
    case Dropped(id) => if id in l.live then Follow(tr[1..], Ledger(l.live - {id}, l.spent + {id})) else None
    case ScopeEnd(id) => if id in l.spent then Follow(tr[1..], l) else None
  }

  lemma {:induction false} FollowConcat(tr1: seq<Event>, tr2: seq<Event>, l: Ledger)
    ensures Follow(tr1 + tr2, l) == (match Follow(tr1, l) case None => None case Some(l1) => Follow(tr2, l1))
    decreases |tr1|
  {
    if tr1 == [] {
      assert tr1 + tr2 == tr2;
    } else {
      assert (tr1 + tr2)[1..] == tr1[1..] + tr2;
      match tr1[0]
      case Bound(id) => FollowConcat(tr1[1..], tr2, l.(live := l.live + {id}));
      case Used(_) => FollowConcat(tr1[1..], tr2, l);
      case Taken(id) => FollowConcat(tr1[1..], tr2, Ledger(l.live - {id}, l.spent + {id}));
      case Dropped(id) => FollowConcat(tr1[1..], tr2, Ledger(l.live - {id}, l.spent + {id}));
      case ScopeEnd(_) => FollowConcat(tr1[1..], tr2, l);
    }
  }

  // ----- Soundness -----

  ghost predicate IdsOk(ids: seq<nat>, next: nat) {
    && (forall i | 0 <= i < |ids| :: ids[i] < next)
    && (forall i, j | 0 <= i < j < |ids| :: ids[i] != ids[j])
  }

  /** The ledger agrees with the slot states: a slot's value is live exactly if it is not moved. */
  ghost predicate Fits(l: Ledger, st: States, ids: seq<nat>, next: nat)
    requires |st| == |ids|
  {
    && (forall id | id in l.live + l.spent :: id < next)
    && (forall i | 0 <= i < |st| :: ids[i] in l.live <==> !st[i].Moved?)
  }

  /** A path from `st` to `st'` obeys the discipline, consumes no borrowed value and nothing below the
      stack, drops only values it bound itself, and ends where the slot states say. */
  ghost predicate PathOk(tr: seq<Event>, aborted: bool, l: Ledger, st: States, st': States, ids: seq<nat>, next: nat, next': nat)
    requires |st| == |st'| == |ids|
  {
    && Follow(tr, l).Some?
    && var l' := Follow(tr, l).value;
       && (forall id | id in l'.live + l'.spent :: id < next')
       && (!aborted ==> forall i | 0 <= i < |st| :: ids[i] in l'.live <==> !st'[i].Moved?)
       && (forall i | 0 <= i < |st| && st[i].Borrowed? && ids[i] in l.live :: ids[i] in l'.live)
       && (forall id | id < next && id !in ids :: id in l'.live <==> id in l.live)
       && (forall id: nat | Dropped(id) in tr :: id >= next)
  }

  lemma ComposePaths(tr1: seq<Event>, tr2: seq<Event>, aborted: bool, l: Ledger, st: States, st1: States, st2: States,
                     ids: seq<nat>, next: nat, next1: nat, next2: nat)
    requires |st| == |st1| == |st2| == |ids| && next <= next1 <= next2 && Later(st, st1)
    requires PathOk(tr1, false, l, st, st1, ids, next, next1)
    requires PathOk(tr2, aborted, Follow(tr1, l).value, st1, st2, ids, next1, next2)
    ensures PathOk(tr1 + tr2, aborted, l, st, st2, ids, next, next2)
  {
    FollowConcat(tr1, tr2, l);
  }

  /** Every path of `c` obeys the discipline, from every ledger that agrees with `st`. */
  ghost predicate CodeOk(c: Code, st: States, st': States, ids: seq<nat>, next: nat, next': nat)
    requires |st| == |st'| == |ids|
  {
    forall tr, aborted, l | IsPath(c, tr, aborted) && Fits(l, st, ids, next) ::
      PathOk(tr, aborted, l, st, st', ids, next, next')
  }

  lemma ThenPathOk(c1: Code, c2: Code, st: States, st1: States, st2: States, ids: seq<nat>, next: nat, next1: nat, next2: nat,
                   tr: seq<Event>, aborted: bool, l: Ledger)
    requires |st| == |st1| == |st2| == |ids| && next <= next1 <= next2 && Later(st, st1)
    requires CodeOk(c1, st, st1, ids, next, next1) && CodeOk(c2, st1, st2, ids, next1, next2)
    requires IsPath(Then(c1, c2), tr, aborted) && Fits(l, st, ids, next)
    ensures PathOk(tr, aborted, l, st, st2, ids, next, next2)
  {
    if aborted && (tr == [] || IsPath(c1, tr, true)) {
      assert PathOk(tr, true, l, st, st1, ids, next, next1);
    } else {
      var tr1, tr2 :| IsPath(c1, tr1, false) && IsPath(c2, tr2, aborted) && tr == tr1 + tr2;
      assert PathOk(tr1, false, l, st, st1, ids, next, next1);
      ComposePaths(tr1, tr2, aborted, l, st, st1, st2, ids, next, next1, next2);
    }
  }

  lemma ThenOk(c1: Code, c2: Code, st: States, st1: States, st2: States, ids: seq<nat>, next: nat, next1: nat, next2: nat)
    requires |st| == |st1| == |st2| == |ids| && next <= next1 <= next2 && Later(st, st1)
    requires CodeOk(c1, st, st1, ids, next, next1) && CodeOk(c2, st1, st2, ids, next1, next2)
    ensures CodeOk(Then(c1, c2), st, st2, ids, next, next2)
  {
    forall tr, aborted, l | IsPath(Then(c1, c2), tr, aborted) && Fits(l, st, ids, next)
      ensures PathOk(tr, aborted, l, st, st2, ids, next, next2)
    {
      ThenPathOk(c1, c2, st, st1, st2, ids, next, next1, next2, tr, aborted, l);
    }
  }

  lemma BranchOk(c1: Code, c2: Code, st: States, st': States, ids: seq<nat>, next: nat, next1: nat, next2: nat)
    requires |st| == |st'| == |ids| && next <= next1 <= next2
    requires CodeOk(c1, st, st', ids, next, next1) && CodeOk(c2, st, st', ids, next1, next2)
    ensures CodeOk(Branch(c1, c2), st, st', ids, next, next2)
  {
    forall tr, aborted, l | IsPath(Branch(c1, c2), tr, aborted) && Fits(l, st, ids, next)
      ensures PathOk(tr, aborted, l, st, st', ids, next, next2)
    {
      if IsPath(c1, tr, aborted) {
        assert PathOk(tr, aborted, l, st, st', ids, next, next1);
      } else {
        assert Fits(l, st, ids, next1);
        assert PathOk(tr, aborted, l, st, st', ids, next1, next2);
      }
    }
  }

  /** A value is never forgotten: it stays live until it is spent. */
  lemma {:induction false} FollowKeeps(tr: seq<Event>, l: Ledger)
    ensures Follow(tr, l).Some? ==> l.live + l.spent <= Follow(tr, l).value.live + Follow(tr, l).value.spent
    decreases |tr|
  {
    if tr != [] {
      match tr[0]
      case Bound(id) => FollowKeeps(tr[1..], l.(live := l.live + {id}));
      case Used(_) => FollowKeeps(tr[1..], l);
      case Taken(id) => FollowKeeps(tr[1..], Ledger(l.live - {id}, l.spent + {id}));
      case Dropped(id) => FollowKeeps(tr[1..], Ledger(l.live - {id}, l.spent + {id}));
      case ScopeEnd(_) => FollowKeeps(tr[1..], l);
    }
  }

  lemma TailFollow(id: nat, drop: bool, l: Ledger)
    requires if drop then id in l.live else id in l.spent && id !in l.live
    ensures Follow(ScopeTail(id, drop), l) == Some(Ledger(l.live - {id}, l.spent + {id}))
  {
    assert [ScopeEnd(id)][1..] == [];
    if drop {
      assert ScopeTail(id, drop)[1..] == [ScopeEnd(id)];
      assert Follow([ScopeEnd(id)], Ledger(l.live - {id}, l.spent + {id})).Some?;
    } else {
      assert l == Ledger(l.live - {id}, l.spent + {id});
    }
  }

  /** The body of a scope, and at its end exactly one of a move on the way and the drop. */
  lemma ScopeBodyOk(body: Code, id: nat, st1: States, st2: States, ids: seq<nat>, next2: nat,
                    tr: seq<Event>, aborted: bool, l1: Ledger)
    requires |st1| == |ids| && |st2| == |st1| + 1 && id < next2 && IdsOk(ids, id)
    requires Later(st1 + [Available], st2)
    requires CodeOk(body, st1 + [Available], st2, ids + [id], id + 1, next2)
    requires IsPath(body, tr, aborted) && Fits(l1, st1, ids, id)
    ensures PathOk(tr, aborted, l1.(live := l1.live + {id}), st1 + [Available], st2, ids + [id], id + 1, next2)
    ensures !aborted ==>
      var l2 := Follow(tr, l1.(live := l1.live + {id})).value;
      Follow(ScopeTail(id, st2[|st1|].Available?), l2) == Some(Ledger(l2.live - {id}, l2.spent + {id}))
  {
    hide PathOk, Follow, Later, IdsOk;
    var l := l1.(live := l1.live + {id});
    BoundFits(l1, st1, ids, id);
    assert PathOk(tr, aborted, l, st1 + [Available], st2, ids + [id], id + 1, next2);
    if !aborted { ScopeTailOk(tr, l, id, st1, st2, ids, next2); }
  }

  lemma BoundFits(l1: Ledger, st1: States, ids: seq<nat>, id: nat)
    requires |st1| == |ids| && IdsOk(ids, id) && Fits(l1, st1, ids, id)
    ensures Fits(l1.(live := l1.live + {id}), st1 + [Available], ids + [id], id + 1)
  {
    var l, st, all := l1.(live := l1.live + {id}), st1 + [Available], ids + [id];
    forall i | 0 <= i < |st| ensures all[i] in l.live <==> !st[i].Moved? {
      assert i < |st1| ==> all[i] == ids[i] && st[i] == st1[i];
    }
    forall x | x in l.live + l.spent ensures x < id + 1 {
      assert x != id ==> x in l1.live + l1.spent;
    }
  }

  lemma ScopeTailOk(tr: seq<Event>, l: Ledger, id: nat, st1: States, st2: States, ids: seq<nat>, next2: nat)
    requires |st1| == |ids| && |st2| == |st1| + 1 && id in l.live && Later(st1 + [Available], st2)
    requires PathOk(tr, false, l, st1 + [Available], st2, ids + [id], id + 1, next2)
    ensures var l2 := Follow(tr, l).value;
      Follow(ScopeTail(id, st2[|st1|].Available?), l2) == Some(Ledger(l2.live - {id}, l2.spent + {id}))
  {
    hide Follow;
    FollowKeeps(tr, l);
    var l2 := Follow(tr, l).value;
    assert (ids + [id])[|st1|] == id && (st1 + [Available])[|st1|] == Available;
    assert id in l2.live <==> !st2[|st1|].Moved?;
    TailFollow(id, st2[|st1|].Available?, l2);
  }

  lemma ScopeFollow(tr1: seq<Event>, id: nat, tr2: seq<Event>, drop: bool, aborted: bool, l: Ledger)
    requires Follow(tr1, l).Some? && id !in Follow(tr1, l).value.live + Follow(tr1, l).value.spent
    ensures var l1 := Follow(tr1, l).value;
      Follow(ScopeTrace(tr1, id, tr2, drop, aborted), l)
      == Follow(tr2 + if aborted then [] else ScopeTail(id, drop), l1.(live := l1.live + {id}))
    ensures var l1 := Follow(tr1, l).value; var r := Follow(tr2, l1.(live := l1.live + {id}));
      Follow(ScopeTrace(tr1, id, tr2, drop, aborted), l)
      == if r.None? || aborted then r else Follow(ScopeTail(id, drop), r.value)
  {
    var l1 := Follow(tr1, l).value;
    var tail := if aborted then [] else ScopeTail(id, drop);
    FollowConcat(tr1, [Bound(id)] + (tr2 + tail), l);
    assert ([Bound(id)] + (tr2 + tail))[1..] == tr2 + tail;
    FollowConcat(tr2, tail, l1.(live := l1.live + {id}));
  }

  lemma ScopeJoin(tr1: seq<Event>, id: nat, tr2: seq<Event>, aborted: bool, l: Ledger,
                  st: States, st1: States, st2: States, ids: seq<nat>, next: nat, next2: nat)
    requires |st| == |st1| == |ids| && |st2| == |st| + 1 && next <= id < next2 && IdsOk(ids, next)
    requires Later(st, st1)
    requires PathOk(tr1, false, l, st, st1, ids, next, id)
    requires var l1 := Follow(tr1, l).value;
      && PathOk(tr2, aborted, l1.(live := l1.live + {id}), st1 + [Available], st2, ids + [id], id + 1, next2)
      && (!aborted ==>
            var l2 := Follow(tr2, l1.(live := l1.live + {id})).value;
            Follow(ScopeTail(id, st2[|st|].Available?), l2) == Some(Ledger(l2.live - {id}, l2.spent + {id})))
    ensures PathOk(ScopeTrace(tr1, id, tr2, st2[|st|].Available?, aborted), aborted, l, st, st2[..|st|], ids, next, next2)
  {
    var l1 := Follow(tr1, l).value;
    ScopeFollow(tr1, id, tr2, st2[|st|].Available?, aborted, l);
    var l2 := Follow(tr2, l1.(live := l1.live + {id})).value;
    var l3 := Follow(ScopeTrace(tr1, id, tr2, st2[|st|].Available?, aborted), l).value;
    assert l3 == if aborted then l2 else Ledger(l2.live - {id}, l2.spent + {id});
    assert l3.live + l3.spent <= l2.live + l2.spent + {id};
    assert forall i | 0 <= i < |st| :: (ids + [id])[i] == ids[i] && (st1 + [Available])[i] == st1[i];
    assert forall x | x < next && x !in ids :: x !in ids + [id];
  }

  lemma ScopeOk(init: Code, id: nat, body: Code, st: States, st1: States, st2: States, ids: seq<nat>, next: nat, next2: nat)
    requires |st| == |st1| == |ids| && |st2| == |st| + 1 && next <= id < next2 && IdsOk(ids, next)
    requires Later(st, st1) && Later(st1 + [Available], st2)
    requires CodeOk(init, st, st1, ids, next, id)
    requires CodeOk(body, st1 + [Available], st2, ids + [id], id + 1, next2)
    ensures CodeOk(Scope(init, id, body, st2[|st|].Available?), st, st2[..|st|], ids, next, next2)
  {
    var drop := st2[|st|].Available?;
    forall tr, aborted, l | IsPath(Scope(init, id, body, drop), tr, aborted) && Fits(l, st, ids, next)
      ensures PathOk(tr, aborted, l, st, st2[..|st|], ids, next, next2)
    {
      if aborted && (tr == [] || IsPath(init, tr, true)) {
        assert PathOk(tr, true, l, st, st1, ids, next, id);
      } else {
        var tr1, tr2 :| IsPath(init, tr1, false) && IsPath(body, tr2, aborted) && tr == ScopeTrace(tr1, id, tr2, drop, aborted);
        assert PathOk(tr1, false, l, st, st1, ids, next, id);
        ScopeBodyOk(body, id, st1, st2, ids, next2, tr2, aborted, Follow(tr1, l).value);
        ScopeJoin(tr1, id, tr2, aborted, l, st, st1, st2, ids, next, next2);
      }
    }
  }

  lemma {:induction false} KeptMembers(st: States, ids: seq<nat>)
    requires |st| == |ids|
    ensures forall i | 0 <= i < |st| && !st[i].Moved? :: ids[i] in Kept(st, ids)
    ensures forall x | x in Kept(st, ids) :: exists i | 0 <= i < |st| :: !st[i].Moved? && ids[i] == x
    decreases |st|
  {
    if st != [] {
      KeptMembers(st[1..], ids[1..]);
      forall i | 0 <= i < |st| && !st[i].Moved? ensures ids[i] in Kept(st, ids) {
        if i > 0 { assert ids[i] == ids[1..][i - 1] && st[i] == st[1..][i - 1]; }
      }
      forall x | x in Kept(st, ids) ensures exists i | 0 <= i < |st| :: !st[i].Moved? && ids[i] == x {
        if x in Kept(st[1..], ids[1..]) {
          var i :| 0 <= i < |st[1..]| && !st[1..][i].Moved? && ids[1..][i] == x;
          assert !st[i + 1].Moved? && ids[i + 1] == x;
        } else {
          assert !st[0].Moved? && ids[0] == x;
        }
      }
    }
  }

  lemma {:induction false} KeptIdsOk(st: States, ids: seq<nat>, next: nat)
    requires |st| == |ids| && IdsOk(ids, next)
    ensures IdsOk(Kept(st, ids), next)
    decreases |st|
  {
    if st != [] {
      KeptIdsOk(st[1..], ids[1..], next);
      KeptMembers(st[1..], ids[1..]);
      var rest := Kept(st[1..], ids[1..]);
      forall j | 0 <= j < |rest| ensures rest[j] != ids[0] {
        assert rest[j] in rest;
        var i :| 0 <= i < |st[1..]| && ids[1..][i] == rest[j];
        assert ids[1..][i] == ids[i + 1];
      }
    }
  }

  /** A trap leaves the captured values live on every path, also when its body aborts halfway. */
  lemma TrapPathOk(tr: seq<Event>, aborted: bool, l: Ledger, st: States, st1: States, ids: seq<nat>, next: nat, next': nat)
    requires |st| == |ids| && IdsOk(ids, next) && next <= next' && |st1| == |Kept(st, ids)|
    requires Fits(l, st, ids, next)
    requires PathOk(tr, aborted, l, AllBorrowed(|st1|), st1, Kept(st, ids), next, next')
    ensures PathOk(tr, aborted, l, st, st, ids, next, next')
    ensures Fits(Follow(tr, l).value, AllBorrowed(|st1|), Kept(st, ids), next')
  {
    KeptMembers(st, ids);
    var l' := Follow(tr, l).value;
    var kept := Kept(st, ids);
    forall k | 0 <= k < |kept| ensures kept[k] in l.live && kept[k] in l'.live {
      assert kept[k] in kept;
      var i :| 0 <= i < |st| && !st[i].Moved? && ids[i] == kept[k];
      assert AllBorrowed(|st1|)[k].Borrowed?;
    }
    forall i | 0 <= i < |st| ensures ids[i] in l'.live <==> !st[i].Moved? {
      if st[i].Moved? {
        assert ids[i] !in kept;
      }
    }
  }

  lemma TryOk(body: Code, fallback: Code, st: States, st1: States, st2: States, ids: seq<nat>, next: nat, next1: nat, next2: nat)
    requires |st| == |ids| && IdsOk(ids, next) && next <= next1 <= next2 && |st1| == |st2| == |Kept(st, ids)|
    requires CodeOk(body, AllBorrowed(|st1|), st1, Kept(st, ids), next, next1)
    requires CodeOk(fallback, AllBorrowed(|st1|), st2, Kept(st, ids), next1, next2)
    ensures CodeOk(Try(body, fallback), st, st, ids, next, next2)
  {
    var kept, inner := Kept(st, ids), AllBorrowed(|st1|);
    forall tr, aborted, l | IsPath(Try(body, fallback), tr, aborted) && Fits(l, st, ids, next)
      ensures PathOk(tr, aborted, l, st, st, ids, next, next2)
    {
      KeptFits(l, st, ids, next);
      if !aborted && IsPath(body, tr, false) {
        assert PathOk(tr, false, l, inner, st1, kept, next, next1);
        TrapPathOk(tr, false, l, st, st1, ids, next, next1);
      } else if !(aborted && tr == []) {
        var tr1, tr2 :| IsPath(body, tr1, true) && IsPath(fallback, tr2, aborted) && tr == tr1 + tr2;
        assert PathOk(tr1, true, l, inner, st1, kept, next, next1);
        TrapPathOk(tr1, true, l, st, st1, ids, next, next1);
        assert PathOk(tr2, aborted, Follow(tr1, l).value, inner, st2, kept, next1, next2);
        TrapJoin(tr1, tr2, aborted, l, st, st1, st2, ids, next, next1, next2);
      }
    }
  }

  lemma KeptFits(l: Ledger, st: States, ids: seq<nat>, next: nat)
    requires |st| == |ids| && Fits(l, st, ids, next)
    ensures Fits(l, AllBorrowed(|Kept(st, ids)|), Kept(st, ids), next)
  {
    KeptMembers(st, ids);
    forall k | 0 <= k < |Kept(st, ids)| ensures Kept(st, ids)[k] in l.live {
      assert Kept(st, ids)[k] in Kept(st, ids);
    }
  }

  /** An aborted body followed by the fallback. */
  lemma TrapJoin(tr1: seq<Event>, tr2: seq<Event>, aborted: bool, l: Ledger, st: States, st1: States, st2: States,
                 ids: seq<nat>, next: nat, next1: nat, next2: nat)
    requires |st| == |ids| && IdsOk(ids, next) && next <= next1 <= next2 && |st1| == |st2| == |Kept(st, ids)|
    requires Fits(l, st, ids, next)
    requires PathOk(tr1, true, l, AllBorrowed(|st1|), st1, Kept(st, ids), next, next1)
    requires PathOk(tr2, aborted, Follow(tr1, l).value, AllBorrowed(|st1|), st2, Kept(st, ids), next1, next2)
    ensures PathOk(tr1 + tr2, aborted, l, st, st, ids, next, next2)
  {
    FollowConcat(tr1, tr2, l);
    TrapPathOk(tr1, true, l, st, st1, ids, next, next1);
    var l1, l2 := Follow(tr1, l).value, Follow(tr1 + tr2, l).value;
    var kept := Kept(st, ids);
    KeptMembers(st, ids);
    forall k | 0 <= k < |kept| ensures kept[k] in l2.live {
      assert kept[k] in l1.live && AllBorrowed(|st1|)[k].Borrowed?;
    }
    forall i | 0 <= i < |st| ensures ids[i] in l2.live <==> !st[i].Moved? {
      if st[i].Moved? { assert ids[i] !in kept; }
    }
  }

  lemma NopOk(st: States, ids: seq<nat>, next: nat)
    requires |st| == |ids|
    ensures CodeOk(Nop, st, st, ids, next, next)
  {
  }

  lemma ReadOk(st: States, slot: nat, ids: seq<nat>, next: nat)
    requires |st| == |ids| && GenRead(st, slot, ids, next).Ok?
    ensures CodeOk(Use(ids[slot]), st, st, ids, next, next)
  {
    forall tr, aborted, l | IsPath(Use(ids[slot]), tr, aborted) && Fits(l, st, ids, next)
      ensures PathOk(tr, aborted, l, st, st, ids, next, next)
    {
      assert aborted || tr[1..] == [];
    }
  }

  lemma MoveOk(st: States, slot: nat, ids: seq<nat>, next: nat)
    requires |st| == |ids| && IdsOk(ids, next) && GenMove(st, slot, ids, next).Ok?
    ensures CodeOk(Take(ids[slot]), st, st[slot := Moved], ids, next, next)
  {
    forall tr, aborted, l | IsPath(Take(ids[slot]), tr, aborted) && Fits(l, st, ids, next)
      ensures PathOk(tr, aborted, l, st, st[slot := Moved], ids, next, next)
    {
      if tr != [] {
        var id := ids[slot];
        assert tr[1..] == [];
        var l' := Ledger(l.live - {id}, l.spent + {id});
        assert Follow(tr, l) == Some(l');
        assert forall i | 0 <= i < |ids| && i != slot :: ids[i] != id;
        assert l'.live + l'.spent == l.live + l.spent;
        assert forall i | 0 <= i < |st| :: ids[i] in l'.live <==> !st[slot := Moved][i].Moved?;
        assert id in ids;
        assert forall x: nat | Dropped(x) in tr :: x >= next;
      }
    }
  }

  /** What the generator emits obeys the ownership discipline on every path, complete or aborted, and
      ends in the slot states the generator ended in. */
  lemma {:induction false} GenSound(e: Expr, env: Env, st: States, sh: Shapes, ids: seq<nat>, next: nat)
    requires |st| == |sh| == |ids| && IdsOk(ids, next)
    requires Gen(e, env, st, sh, ids, next).Ok?
    ensures var g := Gen(e, env, st, sh, ids, next).value;
      CodeOk(g.code, st, g.st, ids, next, g.next)
    decreases e, 1
  {
    hide CodeOk, FieldFound, ShapeKnown, InferShape, Kept, IdsOk;
    match e
    case Prim(_, args) => GenAllSound(args, env, st, sh, ids, next);
    case Apply(func, args) => GenAllSound(args, env, st, sh, ids, next);
    case Move(inner) =>
      match inner {
       case DeBruijn(idx) => MoveOk(st, SlotOf(idx, |st|), ids, next);
       case Expand(name) => MoveOk(st, env.expands[name], ids, next);
       case _ => GenSound(inner, env, st, sh, ids, next);
      }
    case DeBruijn(idx) => ReadOk(st, SlotOf(idx, |st|), ids, next);
    case Expand(name) => ReadOk(st, env.expands[name], ids, next);
    case Borrow(inner) => GenSound(inner, env, st, sh, ids, next);
    case MutBorrow(inner) => GenSound(inner, env, st, sh, ids, next);
    case New(_, count) => GenSound(count, env, st, sh, ids, next);
    case Pack(inst) => GenSound(inst, env, st, sh, ids, next);
    case Unpack(json, _) => GenSound(json, env, st, sh, ids, next);
    case Map(inst, _, _) => GenSound(inst, env, st, sh, ids, next);
    case Filter(inst, _) => GenSound(inst, env, st, sh, ids, next);
    case Metadata(_, _, target) => GenSound(target, env, st, sh, ids, next);
    case Get(inst, _, index) => GenSoundGet(e, env, st, sh, ids, next);
    case Set(inst, _, index, val) => GenSoundSet(e, env, st, sh, ids, next);
    case If(cond, thn, els) => GenSoundIf(e, env, st, sh, ids, next);
    case Let(_, val, body) => GenSoundLet(e, env, st, sh, ids, next);
    case Trap(attempt, fallback) => GenSoundTrap(e, env, st, sh, ids, next);
    case _ => NopOk(st, ids, next);
  }

  lemma {:induction false} GenSoundGet(e: Expr, env: Env, st: States, sh: Shapes, ids: seq<nat>, next: nat)
    requires e.Get?
    requires |st| == |sh| == |ids| && IdsOk(ids, next)
    requires Gen(e, env, st, sh, ids, next).Ok?
    ensures var g := Gen(e, env, st, sh, ids, next).value;
      CodeOk(g.code, st, g.st, ids, next, g.next)
    decreases e, 0
  {
    var inst, index := e.inst, e.index;
    var g1 := Gen(inst, env, st, sh, ids, next).value;
    GenSound(inst, env, st, sh, ids, next);
    var g2 := Gen(index, env, g1.st, sh, ids, g1.next).value;
    GenSound(index, env, g1.st, sh, ids, g1.next);
    ThenOk(g1.code, g2.code, st, g1.st, g2.st, ids, next, g1.next, g2.next);
  }

  lemma {:induction false} GenSoundSet(e: Expr, env: Env, st: States, sh: Shapes, ids: seq<nat>, next: nat)
    requires e.Set?
    requires |st| == |sh| == |ids| && IdsOk(ids, next)
    requires Gen(e, env, st, sh, ids, next).Ok?
    ensures var g := Gen(e, env, st, sh, ids, next).value;
      CodeOk(g.code, st, g.st, ids, next, g.next)
    decreases e, 0
  {
    var inst, index, val := e.inst, e.index, e.val;
    var g1 := Gen(inst, env, st, sh, ids, next).value;
    GenSound(inst, env, st, sh, ids, next);
    var g2 := Gen(index, env, g1.st, sh, ids, g1.next).value;
    GenSound(index, env, g1.st, sh, ids, g1.next);
    var g3 := Gen(val, env, g2.st, sh, ids, g2.next).value;
    GenSound(val, env, g2.st, sh, ids, g2.next);
    ThenOk(g2.code, g3.code, g1.st, g2.st, g3.st, ids, g1.next, g2.next, g3.next);
    ThenOk(g1.code, Then(g2.code, g3.code), st, g1.st, g3.st, ids, next, g1.next, g3.next);
  }

  lemma {:induction false} GenSoundIf(e: Expr, env: Env, st: States, sh: Shapes, ids: seq<nat>, next: nat)
    requires e.If?
    requires |st| == |sh| == |ids| && IdsOk(ids, next)
    requires Gen(e, env, st, sh, ids, next).Ok?
    ensures var g := Gen(e, env, st, sh, ids, next).value;
      CodeOk(g.code, st, g.st, ids, next, g.next)
    decreases e, 0
  {
    var cond, thn, els := e.cond, e.thn, e.els;
    var g1 := Gen(cond, env, st, sh, ids, next).value;
    GenSound(cond, env, st, sh, ids, next);
    var g2 := Gen(thn, env, g1.st, sh, ids, g1.next).value;
    GenSound(thn, env, g1.st, sh, ids, g1.next);
    var g3 := Gen(els, env, g1.st, sh, ids, g2.next).value;
    GenSound(els, env, g1.st, sh, ids, g2.next);
    BranchOk(g2.code, g3.code, g1.st, g3.st, ids, g1.next, g2.next, g3.next);
    ThenOk(g1.code, Branch(g2.code, g3.code), st, g1.st, g3.st, ids, next, g1.next, g3.next);
  }

  lemma {:induction false} GenSoundLet(e: Expr, env: Env, st: States, sh: Shapes, ids: seq<nat>, next: nat)
    requires e.Let?
    requires |st| == |sh| == |ids| && IdsOk(ids, next)
    requires Gen(e, env, st, sh, ids, next).Ok?
    ensures var g := Gen(e, env, st, sh, ids, next).value;
      CodeOk(g.code, st, g.st, ids, next, g.next)
    decreases e, 0
  {
    var val, body := e.val, e.body;
    var g1 := Gen(val, env, st, sh, ids, next).value;
    GenSound(val, env, st, sh, ids, next);
    var sh1, ids1 := sh + [InferShape(val, sh)], ids + [g1.next];
    var g2 := Gen(body, env, g1.st + [Available], sh1, ids1, g1.next + 1).value;
    GenSound(body, env, g1.st + [Available], sh1, ids1, g1.next + 1);
    ScopeOk(g1.code, g1.next, g2.code, st, g1.st, g2.st, ids, next, g2.next);
  }

  lemma {:induction false} GenSoundTrap(e: Expr, env: Env, st: States, sh: Shapes, ids: seq<nat>, next: nat)
    requires e.Trap?
    requires |st| == |sh| == |ids| && IdsOk(ids, next)
    requires Gen(e, env, st, sh, ids, next).Ok?
    ensures var g := Gen(e, env, st, sh, ids, next).value;
      CodeOk(g.code, st, g.st, ids, next, g.next)
    decreases e, 0
  {
    var attempt, fallback := e.attempt, e.fallback;
    var innerShapes, innerIds := Kept(st, sh), Kept(st, ids);
    KeptSameLength(st, sh, ids);
    KeptIdsOk(st, ids, next);
    var inner := AllBorrowed(|innerShapes|);
    var g1 := Gen(attempt, env, inner, innerShapes, innerIds, next).value;
    GenSound(attempt, env, inner, innerShapes, innerIds, next);
    var g2 := Gen(fallback, env, inner, innerShapes, innerIds, g1.next).value;
    GenSound(fallback, env, inner, innerShapes, innerIds, g1.next);
    TryOk(g1.code, g2.code, st, g1.st, g2.st, ids, next, g1.next, g2.next);
  }

  lemma {:induction false} GenAllSound(es: Exprs, env: Env, st: States, sh: Shapes, ids: seq<nat>, next: nat)
    requires |st| == |sh| == |ids| && IdsOk(ids, next)
    requires GenAll(es, env, st, sh, ids, next).Ok?
    ensures var g := GenAll(es, env, st, sh, ids, next).value;
      CodeOk(g.code, st, g.st, ids, next, g.next)
    decreases es, 0
  {
    match es
    case Nil => NopOk(st, ids, next);
    case Cons(head, tail) =>
      var g1 := Gen(head, env, st, sh, ids, next).value;
      GenSound(head, env, st, sh, ids, next);
      var g2 := GenAll(tail, env, g1.st, sh, ids, g1.next).value;
      GenAllSound(tail, env, g1.st, sh, ids, g1.next);
      ThenOk(g1.code, g2.code, st, g1.st, g2.st, ids, next, g1.next, g2.next);
  }
}
