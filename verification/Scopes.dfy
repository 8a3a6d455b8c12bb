/** What becomes of a `let` value at the end of its scope: the code decides once, for all paths, whether
    the value has been moved by then or is dropped there (`src/compiler/codegen/expr.rs`). */
module Scopes {
  import opened Ast
  import opened Generator
  import opened Ownership
  import opened Soundness
  import opened Wrappers

  /** The values bound by the scopes of `c`. */
  function Binders(c: Code): set<nat> {
    match c
    case Nop | Use(_) | Take(_) => {}
    case Then(first, second) => Binders(first) + Binders(second)
    case Branch(thn, els) => Binders(thn) + Binders(els)
    case Scope(init, id, body, _) => Binders(init) + {id} + Binders(body)
    case Try(body, fallback) => Binders(body) + Binders(fallback)
  }

  /** The values that `c` drops at the end of their scopes. */
  function AutoDrops(c: Code): (s: set<nat>)
    ensures s <= Binders(c)
  {
    match c
    case Nop | Use(_) | Take(_) => {}
    case Then(first, second) => AutoDrops(first) + AutoDrops(second)
    case Branch(thn, els) => AutoDrops(thn) + AutoDrops(els)
    case Scope(init, id, body, drop) => AutoDrops(init) + (if drop then {id} else {}) + AutoDrops(body)
    case Try(body, fallback) => AutoDrops(body) + AutoDrops(fallback)
  }

  /** Every value is bound by one scope. */
  predicate Separate(c: Code) {
    match c
    case Nop | Use(_) | Take(_) => true
    case Then(first, second) => Separate(first) && Separate(second) && Binders(first) !! Binders(second)
    case Branch(thn, els) => Separate(thn) && Separate(els) && Binders(thn) !! Binders(els)
    case Scope(init, id, body, _) =>
      Separate(init) && Separate(body) && Binders(init) !! Binders(body) && id !in Binders(init) + Binders(body)
    case Try(body, fallback) => Separate(body) && Separate(fallback) && Binders(body) !! Binders(fallback)
  }

  predicate Within(ids: set<nat>, lo: nat, hi: nat) {
    forall id | id in ids :: lo <= id < hi
  }

  predicate Numbered(g: Gened, next: nat) {
    Separate(g.code) && Within(Binders(g.code), next, g.next)
  }

  lemma Apart(c1: Code, c2: Code, lo: nat, mid: nat, hi: nat)
    requires lo <= mid <= hi && Within(Binders(c1), lo, mid) && Within(Binders(c2), mid, hi)
    ensures Binders(c1) !! Binders(c2) && Within(Binders(c1) + Binders(c2), lo, hi)
  {
    hide Binders;
  }

  /** The generator gives every scope a number of its own. */
  lemma {:induction false} GenNumbered(e: Expr, env: Env, st: States, sh: Shapes, ids: seq<nat>, next: nat)
    requires |st| == |sh| == |ids| && Gen(e, env, st, sh, ids, next).Ok?
    ensures Numbered(Gen(e, env, st, sh, ids, next).value, next)
    decreases e, 1
  {
    hide FieldFound, ShapeKnown, InferShape, Kept;
    match e
    case Prim(_, args) => AllNumbered(args, env, st, sh, ids, next);
    case Apply(_, args) => AllNumbered(args, env, st, sh, ids, next);
    case Move(inner) => if !inner.DeBruijn? && !inner.Expand? { GenNumbered(inner, env, st, sh, ids, next); }
    case Borrow(inner) => GenNumbered(inner, env, st, sh, ids, next);
    case MutBorrow(inner) => GenNumbered(inner, env, st, sh, ids, next);
    case New(_, count) => GenNumbered(count, env, st, sh, ids, next);
    case Get(inst, _, index) =>
      GenNumbered(inst, env, st, sh, ids, next);
      var g1 := Gen(inst, env, st, sh, ids, next).value;
      GenNumbered(index, env, g1.st, sh, ids, g1.next);
    case Set(_, _, _, _) => SetNumbered(e, env, st, sh, ids, next);
    case If(_, _, _) => IfNumbered(e, env, st, sh, ids, next);
    case Let(_, _, _) => LetNumbered(e, env, st, sh, ids, next);
    case Pack(inst) => GenNumbered(inst, env, st, sh, ids, next);
    case Unpack(json, _) => GenNumbered(json, env, st, sh, ids, next);
    case Map(inst, _, _) => GenNumbered(inst, env, st, sh, ids, next);
    case Filter(inst, _) => GenNumbered(inst, env, st, sh, ids, next);
    case Metadata(_, _, target) => GenNumbered(target, env, st, sh, ids, next);
    case Trap(_, _) => TrapNumbered(e, env, st, sh, ids, next);
    case _ =>
  }

  lemma {:induction false} LetNumbered(e: Expr, env: Env, st: States, sh: Shapes, ids: seq<nat>, next: nat)
    requires e.Let? && |st| == |sh| == |ids| && Gen(e, env, st, sh, ids, next).Ok?
    ensures Numbered(Gen(e, env, st, sh, ids, next).value, next)
    decreases e, 0
  {
    hide InferShape;
    GenNumbered(e.val, env, st, sh, ids, next);
    var g1 := Gen(e.val, env, st, sh, ids, next).value;
    GenNumbered(e.body, env, g1.st + [Available], sh + [InferShape(e.val, sh)], ids + [g1.next], g1.next + 1);
  }

  lemma {:induction false} TrapNumbered(e: Expr, env: Env, st: States, sh: Shapes, ids: seq<nat>, next: nat)
    requires e.Trap? && |st| == |sh| == |ids| && Gen(e, env, st, sh, ids, next).Ok?
    ensures Numbered(Gen(e, env, st, sh, ids, next).value, next)
    decreases e, 0
  {
    hide Kept;
    var innerShapes, innerIds := Kept(st, sh), Kept(st, ids);
    KeptSameLength(st, sh, ids);
    var inner := AllBorrowed(|innerShapes|);
    GenNumbered(e.attempt, env, inner, innerShapes, innerIds, next);
    var g1 := Gen(e.attempt, env, inner, innerShapes, innerIds, next).value;
    GenNumbered(e.fallback, env, inner, innerShapes, innerIds, g1.next);
    Apart(g1.code, Gen(e.fallback, env, inner, innerShapes, innerIds, g1.next).value.code, next, g1.next,
          Gen(e.fallback, env, inner, innerShapes, innerIds, g1.next).value.next);
  }

  lemma {:induction false} SetNumbered(e: Expr, env: Env, st: States, sh: Shapes, ids: seq<nat>, next: nat)
    requires e.Set? && |st| == |sh| == |ids| && Gen(e, env, st, sh, ids, next).Ok?
    ensures Numbered(Gen(e, env, st, sh, ids, next).value, next)
    decreases e, 0
  {
    hide FieldFound, InferShape;
    GenNumbered(e.inst, env, st, sh, ids, next);
    var g1 := Gen(e.inst, env, st, sh, ids, next).value;
    GenNumbered(e.index, env, g1.st, sh, ids, g1.next);
    var g2 := Gen(e.index, env, g1.st, sh, ids, g1.next).value;
    GenNumbered(e.val, env, g2.st, sh, ids, g2.next);
    var g3 := Gen(e.val, env, g2.st, sh, ids, g2.next).value;
    var later := Then(g2.code, g3.code);
    Apart(g2.code, g3.code, g1.next, g2.next, g3.next);
    assert Separate(later);
    Apart(g1.code, later, next, g1.next, g3.next);
    assert Separate(Then(g1.code, later));
  }

  lemma {:induction false} IfNumbered(e: Expr, env: Env, st: States, sh: Shapes, ids: seq<nat>, next: nat)
    requires e.If? && |st| == |sh| == |ids| && Gen(e, env, st, sh, ids, next).Ok?
    ensures Numbered(Gen(e, env, st, sh, ids, next).value, next)
    decreases e, 0
  {
    GenNumbered(e.cond, env, st, sh, ids, next);
    var g1 := Gen(e.cond, env, st, sh, ids, next).value;
    GenNumbered(e.thn, env, g1.st, sh, ids, g1.next);
    var g2 := Gen(e.thn, env, g1.st, sh, ids, g1.next).value;
    GenNumbered(e.els, env, g1.st, sh, ids, g2.next);
    var g3 := Gen(e.els, env, g1.st, sh, ids, g2.next).value;
    Apart(g2.code, g3.code, g1.next, g2.next, g3.next);
    Apart(g1.code, Branch(g2.code, g3.code), next, g1.next, g3.next);
  }

  lemma {:induction false} AllNumbered(es: Exprs, env: Env, st: States, sh: Shapes, ids: seq<nat>, next: nat)
    requires |st| == |sh| == |ids| && GenAll(es, env, st, sh, ids, next).Ok?
    ensures Numbered(GenAll(es, env, st, sh, ids, next).value, next)
    decreases es, 0
  {
    match es
    case Nil =>
    case Cons(head, tail) =>
      GenNumbered(head, env, st, sh, ids, next);
      var g1 := Gen(head, env, st, sh, ids, next).value;
      AllNumbered(tail, env, g1.st, sh, ids, g1.next);
  }

  /** What a path of `c` says about scopes and drops. */
  predicate Settled(c: Code, tr: seq<Event>) {
    forall id | id in tr :: match id
      case ScopeEnd(x) => x in Binders(c) && (x in AutoDrops(c) ==> Dropped(x) in tr)
      case Dropped(x) => x in AutoDrops(c)
      case _ => true
  }

  lemma SettledJoin(c: Code, c1: Code, c2: Code, tr1: seq<Event>, tr2: seq<Event>)
    requires Settled(c1, tr1) && Settled(c2, tr2) && Binders(c1) !! Binders(c2)
    requires Binders(c) == Binders(c1) + Binders(c2) && AutoDrops(c) == AutoDrops(c1) + AutoDrops(c2)
    ensures Settled(c, tr1 + tr2) && Settled(c, tr1) && Settled(c, tr2)
  {
  }

  /** A path that reaches the end of a scope drops its value there exactly if the code says so. */
  lemma {:induction false} PathSettled(c: Code, tr: seq<Event>, aborted: bool)
    requires Separate(c) && IsPath(c, tr, aborted)
    ensures Settled(c, tr)
    decreases c
  {
    match c
    case Nop | Use(_) | Take(_) =>
    case Then(first, second) =>
      if aborted && (tr == [] || IsPath(first, tr, true)) {
        if tr != [] { PathSettled(first, tr, true); SettledJoin(c, first, second, tr, []); }
      } else {
        var tr1, tr2 :| IsPath(first, tr1, false) && IsPath(second, tr2, aborted) && tr == tr1 + tr2;
        PathSettled(first, tr1, false);
        PathSettled(second, tr2, aborted);
        SettledJoin(c, first, second, tr1, tr2);
      }
    case Branch(thn, els) =>
      if tr != [] {
        if IsPath(thn, tr, aborted) {
          PathSettled(thn, tr, aborted);
          SettledJoin(c, thn, els, tr, []);
        } else {
          PathSettled(els, tr, aborted);
          SettledJoin(c, thn, els, [], tr);
        }
      }
    case Scope(_, _, _, _) => ScopeSettled(c, tr, aborted);
    case Try(body, fallback) =>
      if tr != [] {
        if !aborted && IsPath(body, tr, false) {
          PathSettled(body, tr, false);
          SettledJoin(c, body, fallback, tr, []);
        } else {
          var tr1, tr2 :| IsPath(body, tr1, true) && IsPath(fallback, tr2, aborted) && tr == tr1 + tr2;
          PathSettled(body, tr1, true);
          PathSettled(fallback, tr2, aborted);
          SettledJoin(c, body, fallback, tr1, tr2);
        }
      }
  }

  lemma {:induction false} ScopeSettled(c: Code, tr: seq<Event>, aborted: bool)
    requires c.Scope? && Separate(c) && IsPath(c, tr, aborted)
    ensures Settled(c, tr)
    decreases c, 0
  {
    var Scope(init, id, body, drop) := c;
    if aborted && (tr == [] || IsPath(init, tr, true)) {
      if tr != [] { PathSettled(init, tr, true); }
    } else {
      var tr1, tr2 :| IsPath(init, tr1, false) && IsPath(body, tr2, aborted) && tr == ScopeTrace(tr1, id, tr2, drop, aborted);
      PathSettled(init, tr1, false);
      PathSettled(body, tr2, aborted);
      forall x ensures x in tr <==> x in tr1 || x == Bound(id) || x in tr2 || (!aborted && x in ScopeTail(id, drop)) {
        InScope(tr1, id, tr2, drop, aborted, x);
      }
      TailMembers(id, drop);
    }
  }

  lemma InScope(tr1: seq<Event>, id: nat, tr2: seq<Event>, drop: bool, aborted: bool, x: Event)
    ensures x in ScopeTrace(tr1, id, tr2, drop, aborted)
            <==> x in tr1 || x == Bound(id) || x in tr2 || (!aborted && x in ScopeTail(id, drop))
  {
    hide ScopeTail;
  }

  lemma TailMembers(id: nat, drop: bool)
    ensures forall x :: x in ScopeTail(id, drop) <==> x == ScopeEnd(id) || (drop && x == Dropped(id))
  {
  }

  lemma {:induction false} EndedIsConsumed(tr: seq<Event>, l: Ledger, id: nat)
    requires Follow(tr, l).Some? && id !in l.spent && ScopeEnd(id) in tr
    ensures Consumptions(tr, id) >= 1
    decreases |tr|
  {
    assert tr == [tr[0]] + tr[1..];
    match tr[0]
    case Bound(x) => EndedIsConsumed(tr[1..], l.(live := l.live + {x}), id);
    case Used(_) => EndedIsConsumed(tr[1..], l, id);
    case Taken(x) => if x != id { EndedIsConsumed(tr[1..], Ledger(l.live - {x}, l.spent + {x}), id); }
    case Dropped(x) => if x != id { EndedIsConsumed(tr[1..], Ledger(l.live - {x}, l.spent + {x}), id); }
    case ScopeEnd(x) => EndedIsConsumed(tr[1..], l, id);
  }

  /** Every value that a function binds is, on each path that reaches the end of its scope, moved exactly
      once or dropped exactly once, and which of the two does not depend on the path. */
  lemma LetSoundness(body: Expr, env: Env, n: nat, tr: seq<Event>, aborted: bool, id: nat)
    requires Checked(Strip(body), env, n).Ok?
    requires Compiled(body, env, n).Ok? ==> IsFunctionPath(Compiled(body, env, n).value, tr, aborted)
    requires ScopeEnd(id) in tr
    ensures Consumptions(tr, id) == 1
    ensures var g := Compiled(body, env, n);
      && g.Ok? && id in Binders(g.value.code)
      && (Dropped(id) in tr <==> id in AutoDrops(g.value.code))
      && (Taken(id) in tr <==> id !in AutoDrops(g.value.code))
  {
    hide Verify, Strip, Gen, IsPath, Follow, Consumptions, ParamDrops;
    AffineSoundness(body, env, n, tr, aborted);
    var st, sh := seq(n, _ => Available), seq(n, _ => None);
    var g := Compiled(body, env, n).value;
    GenNumbered(body, env, st, sh, Params(n), n);
    if aborted {
      PathSettled(g.code, tr, true);
    } else {
      var inner :| IsPath(g.code, inner, false) && tr == inner + ParamDrops(g.st);
      PathSettled(g.code, inner, false);
      DropsMembers(g.st);
    }
    EndedIsConsumed(tr, ParamLedger(n), id);
    ConsumedHow(tr, id);
  }
}
