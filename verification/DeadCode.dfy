/** The elimination of dead functions (`prune_dead_code` of `src/compiler/analysis/mod.rs`). */
module DeadCode {
  import opened Ast
  import opened Wrappers

  /** `get_calls`: the names an expression mentions, except those under `sc`. */
  function Calls(e: Expr): seq<string>
    decreases e
  {
    match e
    case Identifier(name) => [name]
    case Expand(name) => [name]
    case Prim(op, args) => if op.Cat? then [] else CallsAll(args)
    case Apply(func, args) => Calls(func) + CallsAll(args)
    case Move(inner) => Calls(inner)
    case Borrow(inner) => Calls(inner)
    case MutBorrow(inner) => Calls(inner)
    case Define(_, _, body, _) => Calls(body)
    case New(shape, count) => [shape] + Calls(count)
    case Get(inst, _, index) => Calls(inst) + Calls(index)
    case Set(inst, _, index, val) => Calls(inst) + Calls(index) + Calls(val)
    case If(cond, thn, els) => Calls(cond) + Calls(thn) + Calls(els)
    case Let(_, val, body) => Calls(val) + Calls(body)
    case Pack(inst) => Calls(inst)
    case Unpack(json, shape) => [shape] + Calls(json)
    case Map(inst, _, func) => Calls(inst) + Calls(func)
    case Filter(inst, func) => Calls(inst) + Calls(func)
    case Metadata(tag, val, target) => Calls(tag) + Calls(val) + Calls(target)
    case Trap(attempt, fallback) => Calls(attempt) + Calls(fallback)
    case Integer(_) | DeBruijn(_) | Text(_) | Shape(_, _, _) | Import(_, _, _) => []
  }

  function CallsAll(es: Exprs): seq<string>
    decreases es
  {
    match es
    case Nil => []
    case Cons(head, tail) => Calls(head) + CallsAll(tail)
  }

  /** `unwrap_metadata` takes off one layer. */
  function Unwrapped(e: Expr): Expr {
    if e.Metadata? then e.target else e
  }

  predicate IsDefinition(e: Expr) {
    Unwrapped(e).Define?
  }

  predicate IsShape(e: Expr) {
    Unwrapped(e).Shape?
  }

  /** The name a definition or a shape declares. */
  function NameOf(e: Expr): string
    requires IsDefinition(e) || IsShape(e)
  {
    Unwrapped(e).name
  }

  /** `main`, and whatever is exported. */
  predicate IsRoot(e: Expr) {
    (IsDefinition(e) && (NameOf(e) == "main" || Unwrapped(e).exported)) || (IsShape(e) && Unwrapped(e).exported)
  }

  // ----- Reachability -----

  /** A set of names that holds the roots and the calls of its own definitions. */
  predicate Closed(es: seq<Expr>, names: set<string>) {
    && (forall e | e in es && IsRoot(e) :: NameOf(e) in names)
    && (forall e | e in es && IsDefinition(e) && NameOf(e) in names :: Within(e, names))
  }

  predicate Within(e: Expr, names: set<string>) {
    forall c | c in Calls(e) :: c in names
  }

  ghost predicate Least(es: seq<Expr>, names: set<string>) {
    Closed(es, names) && forall s {:trigger Closed(es, s)} | Closed(es, s) :: names <= s
  }

  /** No two definitions or shapes declare the same name. */
  predicate DistinctNames(es: seq<Expr>) {
    forall i, j | 0 <= i < j < |es| && (IsDefinition(es[i]) || IsShape(es[i])) && (IsDefinition(es[j]) || IsShape(es[j])) ::
      NameOf(es[i]) != NameOf(es[j])
  }

  predicate Kept(e: Expr, reachable: set<string>) {
    var inner := Unwrapped(e);
    match inner
    case Define(name, _, _, _) => name in reachable
    case Import(_, symbol, _) => symbol in reachable
    case Shape(name, _, exported) => name in reachable || exported
    case _ => true
  }

  function Keep(es: seq<Expr>, reachable: set<string>): seq<Expr> {
    if es == [] then [] else (if Kept(es[0], reachable) then [es[0]] else []) + Keep(es[1..], reachable)
  }

  // ----- The worklist -----

  /** Everything on the worklist is a definition of the module that has been reached. */
  predicate Pending(es: seq<Expr>, toVisit: seq<Expr>, reachable: set<string>) {
    forall e | e in toVisit :: e in es && IsDefinition(e) && NameOf(e) in reachable
  }

  /** Every definition reached was visited or waits. */
  predicate Waiting(es: seq<Expr>, toVisit: seq<Expr>, reachable: set<string>, visited: set<string>) {
    forall e | e in es && IsDefinition(e) && NameOf(e) in reachable && NameOf(e) !in visited :: e in toVisit
  }

  /** What was visited has had its calls entered. */
  predicate Entered(es: seq<Expr>, reachable: set<string>, visited: set<string>) {
    forall e | e in es && IsDefinition(e) && NameOf(e) in visited :: Within(e, reachable)
  }

  predicate RootsIn(es: seq<Expr>, reachable: set<string>) {
    forall e | e in es && IsRoot(e) :: NameOf(e) in reachable
  }

  /** Nothing beyond what every closed set holds has been reached. */
  ghost predicate Minimal(es: seq<Expr>, reachable: set<string>) {
    forall s {:trigger Closed(es, s)} | Closed(es, s) :: reachable <= s
  }

  /** A shape's name being reached says nothing about definitions. */
  lemma SameName(es: seq<Expr>, a: Expr, b: Expr)
    requires DistinctNames(es) && a in es && b in es
    requires (IsDefinition(a) || IsShape(a)) && (IsDefinition(b) || IsShape(b)) && NameOf(a) == NameOf(b)
    ensures a == b
  {
    var i :| 0 <= i < |es| && es[i] == a;
    var j :| 0 <= j < |es| && es[j] == b;
  }

  predicate FromRoot(es: seq<Expr>, n: string) {
    exists e :: e in es && IsRoot(e) && NameOf(e) == n
  }

  lemma FromRootMore(es: seq<Expr>, e: Expr, names: set<string>)
    requires forall n | n in names :: FromRoot(es, n)
    ensures forall n | n in names :: FromRoot(es + [e], n)
    ensures IsRoot(e) ==> FromRoot(es + [e], NameOf(e))
  {
    forall n | n in names ensures FromRoot(es + [e], n) {
      var root :| root in es && IsRoot(root) && NameOf(root) == n;
      assert root in es + [e];
    }
    assert e in es + [e];
  }

  /** Step 1: the roots. */
  method FindRoots(es: seq<Expr>) returns (reachable: set<string>, toVisit: seq<Expr>)
    ensures RootsIn(es, reachable) && Pending(es, toVisit, reachable) && Minimal(es, reachable)
    ensures DistinctNames(es) ==> Waiting(es, toVisit, reachable, {})
  {
    reachable, toVisit := {}, [];
    for i := 0 to |es|
      invariant forall e | e in es[..i] && IsRoot(e) :: NameOf(e) in reachable
      invariant forall n | n in reachable :: FromRoot(es[..i], n)
      invariant forall e | e in es[..i] && IsDefinition(e) && IsRoot(e) :: e in toVisit
      invariant Pending(es, toVisit, reachable)
    {
      assert es[..i + 1] == es[..i] + [es[i]];
      FromRootMore(es[..i], es[i], reachable);
      var actual := Unwrapped(es[i]);
      match actual {
        case Define(name, _, _, exported) =>
          if name == "main" || exported {
            reachable := reachable + {name};
            toVisit := toVisit + [es[i]];
          }
        case Shape(name, _, exported) =>
          if exported { reachable := reachable + {name}; }
        case _ =>
      }
    }
    assert es[..|es|] == es;
    forall s {:trigger Closed(es, s)} | Closed(es, s) ensures reachable <= s {
      forall n | n in reachable ensures n in s { assert FromRoot(es, n); }
    }
    if DistinctNames(es) {
      forall e | e in es && IsDefinition(e) && NameOf(e) in reachable ensures e in toVisit {
        assert FromRoot(es, NameOf(e));
        var root :| root in es && IsRoot(root) && NameOf(root) == NameOf(e);
        SameName(es, e, root);
      }
    }
  }

  /** Adds the calls of a definition to what is reached. */
  method EnterCalls(calls: seq<string>, before: set<string>) returns (reachable: set<string>)
    ensures forall n :: n in reachable <==> n in before || n in calls
  {
    reachable := before;
    for i := 0 to |calls|
      invariant forall n :: n in reachable <==> n in before || n in calls[..i]
    {
      assert calls[..i + 1] == calls[..i] + [calls[i]];
      if calls[i] !in reachable { reachable := reachable + {calls[i]}; }
    }
    assert calls[..|calls|] == calls;
  }

  /** Pushes every definition that was reached and not visited. */
  method PushReached(es: seq<Expr>, before: seq<Expr>, reachable: set<string>, visited: set<string>) returns (toVisit: seq<Expr>)
    requires Pending(es, before, reachable)
    ensures Pending(es, toVisit, reachable) && Waiting(es, toVisit, reachable, visited)
    ensures before <= toVisit
    ensures forall i | |before| <= i < |toVisit| :: IsDefinition(toVisit[i]) && NameOf(toVisit[i]) !in visited
  {
    toVisit := before;
    for i := 0 to |es|
      invariant before <= toVisit && Pending(es, toVisit, reachable)
      invariant forall e | e in es[..i] && IsDefinition(e) && NameOf(e) in reachable && NameOf(e) !in visited :: e in toVisit
      invariant forall k | |before| <= k < |toVisit| :: IsDefinition(toVisit[k]) && NameOf(toVisit[k]) !in visited
    {
      assert es[..i + 1] == es[..i] + [es[i]];
      if IsDefinition(es[i]) && NameOf(es[i]) in reachable && NameOf(es[i]) !in visited {
        toVisit := toVisit + [es[i]];
      }
    }
    assert es[..|es|] == es;
  }

  function DefinedNames(es: seq<Expr>): set<string> {
    set e | e in es && IsDefinition(e) :: NameOf(e)
  }

  predicate TopVisited(toVisit: seq<Expr>, visited: set<string>)
    requires forall e | e in toVisit :: IsDefinition(e)
  {
    toVisit != [] && NameOf(toVisit[|toVisit| - 1]) in visited
  }

  /** Steps 1 and 2: what the roots reach.  A definition may be pushed many times over, and comes off
      the worklist as often; the loop ends because each turn visits a new name, or lays an unvisited
      definition on top of a visited one, or shortens the list. */
  method FindReachable(es: seq<Expr>) returns (reachable: set<string>)
    ensures RootsIn(es, reachable) && Minimal(es, reachable)
    ensures DistinctNames(es) ==> Least(es, reachable)
  {
    hide Calls, Minimal, Entered, Waiting;
    var toVisit;
    reachable, toVisit := FindRoots(es);
    var visited: set<string> := {};
    NoneEntered(es, reachable);
    ghost var names := DefinedNames(es);
    while toVisit != []
      invariant RootsIn(es, reachable) && Pending(es, toVisit, reachable) && Minimal(es, reachable)
      invariant DistinctNames(es) ==> Waiting(es, toVisit, reachable, visited) && Entered(es, reachable, visited)
      invariant visited <= names
      decreases |names - visited|, TopVisited(toVisit, visited), |toVisit|
    {
      var e := toVisit[|toVisit| - 1];
      ghost var left, gone, shown := toVisit[..|toVisit| - 1], visited, TopVisited(toVisit, visited);
      toVisit := toVisit[..|toVisit| - 1];
      ghost var was := reachable;
      reachable := EnterCalls(Calls(e), reachable);
      CallsMinimal(es, e, was, reachable);
      assert e in es && NameOf(e) in names;
      visited := visited + {NameOf(e)};
      if DistinctNames(es) {
        EnteredMore(es, e, was, reachable, gone, visited);
      }
      assert Pending(es, toVisit, reachable);
      toVisit := PushReached(es, toVisit, reachable, visited);
      if NameOf(e) in gone {
        assert visited == gone;
        if toVisit != left {
          assert !TopVisited(toVisit, visited);
        }
      } else {
        VisitedShrinks(names, gone, visited, NameOf(e));
      }
    }
    if DistinctNames(es) {
      AllVisited(es, reachable, visited);
    }
  }

  lemma AllVisited(es: seq<Expr>, reachable: set<string>, visited: set<string>)
    requires RootsIn(es, reachable) && Minimal(es, reachable) && Waiting(es, [], reachable, visited) && Entered(es, reachable, visited)
    ensures Least(es, reachable)
  {
    forall e | e in es && IsDefinition(e) && NameOf(e) in reachable ensures Within(e, reachable) {
      assert NameOf(e) in visited;
    }
  }

  lemma NoneEntered(es: seq<Expr>, reachable: set<string>)
    ensures Entered(es, reachable, {})
  {
  }

  lemma VisitedShrinks(names: set<string>, gone: set<string>, visited: set<string>, n: string)
    requires n in names && n !in gone && visited == gone + {n}
    ensures |names - visited| < |names - gone|
  {
    assert names - gone == (names - visited) + {n};
  }

  lemma CallsMinimal(es: seq<Expr>, e: Expr, was: set<string>, reachable: set<string>)
    requires e in es && IsDefinition(e) && NameOf(e) in was && Minimal(es, was)
    requires forall n :: n in reachable <==> n in was || n in Calls(e)
    ensures Minimal(es, reachable)
  {
    hide Calls;
    forall s {:trigger Closed(es, s)} | Closed(es, s) ensures reachable <= s {
      assert was <= s;
      assert Within(e, s);
    }
  }

  lemma EnteredMore(es: seq<Expr>, e: Expr, was: set<string>, reachable: set<string>, gone: set<string>, visited: set<string>)
    requires DistinctNames(es) && e in es && IsDefinition(e) && visited == gone + {NameOf(e)}
    requires Entered(es, was, gone) && was <= reachable && forall n | n in Calls(e) :: n in reachable
    ensures Entered(es, reachable, visited)
  {
    hide Calls;
    forall d | d in es && IsDefinition(d) && NameOf(d) in visited ensures Within(d, reachable) {
      if NameOf(d) == NameOf(e) {
        SameName(es, d, e);
      } else {
        assert Within(d, was);
      }
    }
  }

  /** `prune_dead_code` */
  method PruneDeadCode(es: seq<Expr>) returns (kept: seq<Expr>)
    ensures exists reachable ::
      && kept == Keep(es, reachable)
      && RootsIn(es, reachable) && Minimal(es, reachable)
      && (DistinctNames(es) ==> Least(es, reachable))
  {
    var reachable := FindReachable(es);
    kept := [];
    assert es[0..] == es;
    for i := 0 to |es|
      invariant kept + Keep(es[i..], reachable) == Keep(es, reachable)
    {
      assert es[i..][1..] == es[i + 1..];
      if Kept(es[i], reachable) { kept := kept + [es[i]]; }
    }
    assert kept + [] == kept;
  }

  // ----- What the result is worth -----

  /** The names the roots reach in at most `n` calls. */
  function Level(es: seq<Expr>, n: nat): set<string> {
    if n == 0 then set e | e in es && IsRoot(e) :: NameOf(e)
    else
      var before := Level(es, n - 1);
      before + set e, c | e in es && IsDefinition(e) && NameOf(e) in before && c in Calls(e) :: c
  }

  lemma {:induction false} LevelWithin(es: seq<Expr>, n: nat, names: set<string>)
    requires Closed(es, names)
    ensures Level(es, n) <= names
    decreases n
  {
    hide Calls;
    if n > 0 {
      LevelWithin(es, n - 1, names);
      forall e, c | e in es && IsDefinition(e) && NameOf(e) in Level(es, n - 1) && c in Calls(e) ensures c in names {
        assert Within(e, names);
      }
    }
  }

  lemma {:induction false} LevelsGrow(es: seq<Expr>, m: nat, n: nat)
    requires m <= n
    ensures Level(es, m) <= Level(es, n)
    decreases n
  {
    hide Calls;
    if m < n {
      LevelsGrow(es, m, n - 1);
    }
  }

  ghost predicate Reached(es: seq<Expr>, name: string) {
    exists n: nat :: name in Level(es, n)
  }

  /** The least closed set holds exactly the names reached from the roots by some number of calls. */
  lemma LeastIsReached(es: seq<Expr>, names: set<string>, name: string)
    requires Least(es, names)
    ensures name in names <==> Reached(es, name)
  {
    hide Calls;
    if Reached(es, name) {
      var n: nat :| name in Level(es, n);
      LevelWithin(es, n, names);
    } else {
      var some := set x | x in names && Reached(es, x);
      forall e | e in es && IsRoot(e) ensures NameOf(e) in some {
        assert NameOf(e) in Level(es, 0);
      }
      forall e | e in es && IsDefinition(e) && NameOf(e) in some ensures Within(e, some) {
        assert Within(e, names);
        var n: nat :| NameOf(e) in Level(es, n);
        forall c | c in Calls(e) ensures c in some {
          assert c in Level(es, n + 1);
        }
      }
      assert Closed(es, some);
    }
  }

  lemma {:induction false} KeepExactly(es: seq<Expr>, reachable: set<string>, e: Expr)
    ensures e in Keep(es, reachable) <==> e in es && Kept(e, reachable)
    decreases |es|
  {
    if es != [] {
      KeepExactly(es[1..], reachable, e);
      assert es == [es[0]] + es[1..];
    }
  }

  /** The name under which a declaration is called. */
  function Declares(e: Expr): Option<string> {
    match Unwrapped(e)
    case Define(name, _, _, _) => Some(name)
    case Shape(name, _, _) => Some(name)
    case Import(_, symbol, _) => Some(symbol)
    case _ => None
  }

  /** Nothing a kept definition calls has been removed: no function, no shape and no import. */
  lemma NothingDangles(es: seq<Expr>, reachable: set<string>, caller: Expr, callee: Expr)
    requires Least(es, reachable)
    requires caller in Keep(es, reachable) && IsDefinition(caller)
    requires callee in es && Declares(callee).Some? && Declares(callee).value in Calls(caller)
    ensures callee in Keep(es, reachable)
  {
    hide Calls;
    KeepExactly(es, reachable, caller);
    KeepExactly(es, reachable, callee);
    assert Within(caller, reachable);
  }

  // ----- What is really called -----

  /** All names an expression mentions, those under `sc` included. */
  function AllCalls(e: Expr): seq<string>
    decreases e
  {
    match e
    case Identifier(name) => [name]
    case Expand(name) => [name]
    case Prim(_, args) => AllCallsAll(args)
    case Apply(func, args) => AllCalls(func) + AllCallsAll(args)
    case Move(inner) => AllCalls(inner)
    case Borrow(inner) => AllCalls(inner)
    case MutBorrow(inner) => AllCalls(inner)
    case Define(_, _, body, _) => AllCalls(body)
    case New(shape, count) => [shape] + AllCalls(count)
    case Get(inst, _, index) => AllCalls(inst) + AllCalls(index)
    case Set(inst, _, index, val) => AllCalls(inst) + AllCalls(index) + AllCalls(val)
    case If(cond, thn, els) => AllCalls(cond) + AllCalls(thn) + AllCalls(els)
    case Let(_, val, body) => AllCalls(val) + AllCalls(body)
    case Pack(inst) => AllCalls(inst)
    case Unpack(json, shape) => [shape] + AllCalls(json)
    case Map(inst, _, func) => AllCalls(inst) + AllCalls(func)
    case Filter(inst, func) => AllCalls(inst) + AllCalls(func)
    case Metadata(tag, val, target) => AllCalls(tag) + AllCalls(val) + AllCalls(target)
    case Trap(attempt, fallback) => AllCalls(attempt) + AllCalls(fallback)
    case Integer(_) | DeBruijn(_) | Text(_) | Shape(_, _, _) | Import(_, _, _) => []
  }

  function AllCallsAll(es: Exprs): seq<string>
    decreases es
  {
    match es
    case Nil => []
    case Cons(head, tail) => AllCalls(head) + AllCallsAll(tail)
  }

  /** The names an expression mentions under `sc`. */
  function Hidden(e: Expr): seq<string>
    decreases e
  {
    match e
    case Prim(op, args) => if op.Cat? then AllCallsAll(args) else HiddenAll(args)
    case Apply(func, args) => Hidden(func) + HiddenAll(args)
    case Move(inner) => Hidden(inner)
    case Borrow(inner) => Hidden(inner)
    case MutBorrow(inner) => Hidden(inner)
    case Define(_, _, body, _) => Hidden(body)
    case New(_, count) => Hidden(count)
    case Get(inst, _, index) => Hidden(inst) + Hidden(index)
    case Set(inst, _, index, val) => Hidden(inst) + Hidden(index) + Hidden(val)
    case If(cond, thn, els) => Hidden(cond) + Hidden(thn) + Hidden(els)
    case Let(_, val, body) => Hidden(val) + Hidden(body)
    case Pack(inst) => Hidden(inst)
    case Unpack(json, _) => Hidden(json)
    case Map(inst, _, func) => Hidden(inst) + Hidden(func)
    case Filter(inst, func) => Hidden(inst) + Hidden(func)
    case Metadata(tag, val, target) => Hidden(tag) + Hidden(val) + Hidden(target)
    case Trap(attempt, fallback) => Hidden(attempt) + Hidden(fallback)
    case _ => []
  }

  function HiddenAll(es: Exprs): seq<string>
    decreases es
  {
    match es
    case Nil => []
    case Cons(head, tail) => Hidden(head) + HiddenAll(tail)
  }

  /** What is mentioned is what `get_calls` sees and what it does not. */
  lemma {:induction false} SeenAndHidden(e: Expr, c: string)
    ensures c in AllCalls(e) <==> c in Calls(e) || c in Hidden(e)
    decreases e, 1
  {
    match e
    case Prim(_, _) => SeenAndHiddenCall(e, c);
    case Apply(_, _) => SeenAndHiddenCall(e, c);
    case Move(inner) => SeenAndHidden(inner, c);
    case Borrow(inner) => SeenAndHidden(inner, c);
    case MutBorrow(inner) => SeenAndHidden(inner, c);
    case Define(_, _, body, _) => SeenAndHidden(body, c);
    case New(_, _) => SeenAndHiddenCall(e, c);
    case Get(inst, _, index) => SeenAndHiddenTwo(e, inst, index, c);
    case Set(_, _, _, _) => SeenAndHiddenThree(e, e.inst, e.index, e.val, c);
    case If(cond, thn, els) => SeenAndHiddenThree(e, cond, thn, els, c);
    case Let(_, val, body) => SeenAndHiddenTwo(e, val, body, c);
    case Pack(inst) => SeenAndHidden(inst, c);
    case Unpack(_, _) => SeenAndHiddenCall(e, c);
    case Map(inst, _, func) => SeenAndHiddenTwo(e, inst, func, c);
    case Filter(inst, func) => SeenAndHiddenTwo(e, inst, func, c);
    case Metadata(tag, val, target) => SeenAndHiddenThree(e, tag, val, target, c);
    case Trap(attempt, fallback) => SeenAndHiddenTwo(e, attempt, fallback, c);
    case _ =>
  }

  lemma {:induction false} SeenAndHiddenCall(e: Expr, c: string)
    requires e.Prim? || e.Apply? || e.New? || e.Unpack?
    ensures c in AllCalls(e) <==> c in Calls(e) || c in Hidden(e)
    decreases e, 0
  {
    if e.Prim? {
      SeenAndHiddenAll(e.args, c);
    } else if e.Apply? {
      SeenAndHidden(e.func, c);
      SeenAndHiddenAll(e.args, c);
    } else if e.New? {
      SeenAndHidden(e.count, c);
    } else {
      SeenAndHidden(e.json, c);
    }
  }

  lemma {:induction false} SeenAndHiddenTwo(e: Expr, x: Expr, y: Expr, c: string)
    requires x < e && y < e
    ensures c in AllCalls(x) + AllCalls(y) <==> c in Calls(x) + Calls(y) || c in Hidden(x) + Hidden(y)
    decreases e, 0
  {
    hide Calls, AllCalls, Hidden;
    SeenAndHidden(x, c);
    SeenAndHidden(y, c);
  }

  lemma {:induction false} SeenAndHiddenThree(e: Expr, x: Expr, y: Expr, z: Expr, c: string)
    requires x < e && y < e && z < e
    ensures c in AllCalls(x) + AllCalls(y) + AllCalls(z)
      <==> c in Calls(x) + Calls(y) + Calls(z) || c in Hidden(x) + Hidden(y) + Hidden(z)
    decreases e, 0
  {
    hide Calls, AllCalls, Hidden;
    SeenAndHidden(x, c);
    SeenAndHidden(y, c);
    SeenAndHidden(z, c);
  }

  lemma {:induction false} SeenAndHiddenAll(es: Exprs, c: string)
    ensures c in AllCallsAll(es) <==> c in CallsAll(es) || c in HiddenAll(es)
    decreases es, 1
  {
    match es
    case Nil =>
    case Cons(head, tail) => SeenAndHidden(head, c); SeenAndHiddenAll(tail, c);
  }

  /** The names the roots really reach in at most `n` calls. */
  function AllLevel(es: seq<Expr>, n: nat): set<string> {
    if n == 0 then set e | e in es && IsRoot(e) :: NameOf(e)
    else
      var before := AllLevel(es, n - 1);
      before + set e, c | e in es && IsDefinition(e) && NameOf(e) in before && c in AllCalls(e) :: c
  }

  ghost predicate ReallyReached(es: seq<Expr>, name: string) {
    exists n: nat :: name in AllLevel(es, n)
  }

  lemma {:induction false} LevelInAll(es: seq<Expr>, n: nat)
    ensures Level(es, n) <= AllLevel(es, n)
    decreases n
  {
    hide Calls, AllCalls;
    if n > 0 {
      LevelInAll(es, n - 1);
      forall e, c | e in es && IsDefinition(e) && NameOf(e) in Level(es, n - 1) && c in Calls(e) ensures c in AllLevel(es, n) {
        SeenAndHidden(e, c);
      }
    }
  }

  predicate Declared(es: seq<Expr>, name: string) {
    exists d :: d in es && Declares(d) == Some(name)
  }

  /** Nothing that is mentioned anywhere in what is kept has been removed. */
  predicate Safe(es: seq<Expr>, reachable: set<string>) {
    forall caller, callee | caller in Keep(es, reachable) && callee in es && Declares(callee).Some?
                            && Declares(callee).value in AllCalls(caller) :: callee in Keep(es, reachable)
  }

  /** What the definitions that are really reached mention under `sc` is reached in some other way. */
  ghost predicate HiddenReached(es: seq<Expr>) {
    forall d, c | d in es && IsDefinition(d) && ReallyReached(es, NameOf(d)) && c in Hidden(d) && Declared(es, c) :: Reached(es, c)
  }

  /** So is what everything else that is kept mentions: bare expressions, definitions under several layers
      of metadata, and the metadata of imports and shapes. */
  ghost predicate OthersReached(es: seq<Expr>) {
    forall e, c | e in es && !IsDefinition(e) && (Declares(e).Some? ==> Reached(es, Declares(e).value))
                  && c in AllCalls(e) && Declared(es, c) :: Reached(es, c)
  }

  /** Being kept, for a declaration, is being reached. */
  lemma KeptIsReached(es: seq<Expr>, reachable: set<string>, e: Expr)
    requires Least(es, reachable) && e in es
    ensures e in Keep(es, reachable) <==> Declares(e).None? || Reached(es, Declares(e).value)
  {
    KeepExactly(es, reachable, e);
    if Declares(e).Some? {
      LeastIsReached(es, reachable, Declares(e).value);
      if IsShape(e) && Unwrapped(e).exported { assert IsRoot(e); }
    }
  }

  /** A module that is pruned safely is one in which nothing is really reached but by calls that are seen. */
  lemma {:induction false} SafeReaches(es: seq<Expr>, reachable: set<string>, n: nat, name: string)
    requires Least(es, reachable) && Safe(es, reachable) && name in AllLevel(es, n) && Declared(es, name)
    ensures Reached(es, name)
    decreases n
  {
    hide Calls, AllCalls, Least, Keep;
    if n == 0 {
      assert name in Level(es, 0);
    } else if name in AllLevel(es, n - 1) {
      SafeReaches(es, reachable, n - 1, name);
    } else {
      var e :| e in es && IsDefinition(e) && NameOf(e) in AllLevel(es, n - 1) && name in AllCalls(e);
      assert Declares(e) == Some(NameOf(e));
      SafeReaches(es, reachable, n - 1, NameOf(e));
      KeptIsReached(es, reachable, e);
      var d :| d in es && Declares(d) == Some(name);
      KeptIsReached(es, reachable, d);
    }
  }

  /** Pruning removes nothing that is used if and only if what is mentioned under `sc`, and outside of
      definitions, is reached by calls that `get_calls` sees. */
  lemma PruningSafe(es: seq<Expr>, reachable: set<string>)
    requires Least(es, reachable)
    ensures Safe(es, reachable) <==> HiddenReached(es) && OthersReached(es)
  {
    hide Calls, AllCalls, Hidden, Least, Keep, Level, AllLevel;
    if Safe(es, reachable) {
      forall d, c | d in es && IsDefinition(d) && ReallyReached(es, NameOf(d)) && c in Hidden(d) && Declared(es, c) ensures Reached(es, c) {
        assert Declares(d) == Some(NameOf(d));
        var n: nat :| NameOf(d) in AllLevel(es, n);
        SafeReaches(es, reachable, n, NameOf(d));
        SeenAndHidden(d, c);
        SafeCallee(es, reachable, d, c);
      }
      forall e, c | e in es && !IsDefinition(e) && (Declares(e).Some? ==> Reached(es, Declares(e).value)) && c in AllCalls(e) && Declared(es, c)
        ensures Reached(es, c)
      {
        SafeCallee(es, reachable, e, c);
      }
    }
    if HiddenReached(es) && OthersReached(es) {
      forall caller, callee | caller in Keep(es, reachable) && callee in es && Declares(callee).Some? && Declares(callee).value in AllCalls(caller)
        ensures callee in Keep(es, reachable)
      {
        KeepExactly(es, reachable, caller);
        KeptIsReached(es, reachable, caller);
        KeptIsReached(es, reachable, callee);
        CalleeReached(es, reachable, caller, Declares(callee).value);
      }
    }
  }

  lemma SafeCallee(es: seq<Expr>, reachable: set<string>, caller: Expr, name: string)
    requires Least(es, reachable) && Safe(es, reachable) && caller in es && name in AllCalls(caller) && Declared(es, name)
    requires Declares(caller).None? || Reached(es, Declares(caller).value)
    ensures Reached(es, name)
  {
    hide AllCalls, Least, Keep, Reached;
    KeptIsReached(es, reachable, caller);
    var d :| d in es && Declares(d) == Some(name);
    KeptIsReached(es, reachable, d);
  }

  lemma CalleeReached(es: seq<Expr>, reachable: set<string>, caller: Expr, name: string)
    requires Least(es, reachable) && HiddenReached(es) && OthersReached(es)
    requires caller in es && (Declares(caller).None? || Reached(es, Declares(caller).value))
    requires name in AllCalls(caller) && Declared(es, name)
    ensures Reached(es, name)
  {
    hide Calls, AllCalls, Hidden;
    if IsDefinition(caller) {
      SeenAndHidden(caller, name);
      var n: nat :| NameOf(caller) in Level(es, n);
      if name in Calls(caller) {
        assert name in Level(es, n + 1);
      } else {
        LevelInAll(es, n);
        assert ReallyReached(es, NameOf(caller));
      }
    }
  }

  // ----- Where it is not safe -----

  lemma Dangling(es: seq<Expr>, kept: set<string>, caller: Expr, callee: Expr)
    requires Least(es, kept) && caller in es && callee in es && Kept(caller, kept) && !Kept(callee, kept)
    requires Declares(callee).Some? && Declares(callee).value in AllCalls(caller)
    ensures caller in Keep(es, kept) && callee !in Keep(es, kept) && !Safe(es, kept)
    ensures !HiddenReached(es) || !OthersReached(es)
  {
    hide Calls, AllCalls, Least;
    KeepExactly(es, kept, caller);
    KeepExactly(es, kept, callee);
    PruningSafe(es, kept);
  }

  lemma NoneHidden(es: seq<Expr>)
    requires forall d | d in es && IsDefinition(d) :: Hidden(d) == []
    ensures HiddenReached(es)
  {
  }

  lemma NoOthers(es: seq<Expr>)
    requires forall e | e in es :: IsDefinition(e)
    ensures OthersReached(es)
  {
  }

  /** A call under `sc` is not seen: the function is removed from under its caller. */
  lemma CatHidesCalls(kept: set<string>)
    returns (es: seq<Expr>, caller: Expr, callee: Expr)
    ensures DistinctNames(es) && caller in es && callee in es && IsDefinition(callee)
    ensures caller == Define("main", [], Prim(Cat, Cons(Apply(Identifier(NameOf(callee)), Nil), Cons(Text(""), Nil))), false)
    ensures NameOf(callee) in AllCalls(caller) && NameOf(callee) !in Calls(caller)
    ensures Least(es, kept) ==> caller in Keep(es, kept) && callee !in Keep(es, kept) && !Safe(es, kept) && !HiddenReached(es)
  {
    callee := Define("f", [], Text("x"), false);
    var call := Apply(Identifier("f"), Nil);
    var args := Cons(call, Cons(Text(""), Nil));
    caller := Define("main", [], Prim(Cat, args), false);
    es := [caller, callee];
    hide Calls, AllCalls, AllCallsAll, Hidden, Safe, HiddenReached, OthersReached, Keep, Least;
    CatUnseen(call, args);
    assert DistinctNames(es);
    if Least(es, kept) {
      OnlyMain(es, kept);
      NoOthers(es);
      Dangling(es, kept, caller, callee);
    }
  }

  lemma CatUnseen(call: Expr, args: Exprs)
    requires call == Apply(Identifier("f"), Nil) && args == Cons(call, Cons(Text(""), Nil))
    ensures Calls(Define("main", [], Prim(Cat, args), false)) == []
    ensures "f" in AllCalls(Define("main", [], Prim(Cat, args), false))
  {
    assert "f" in AllCalls(call) && "f" in AllCallsAll(args) && "f" in AllCalls(Prim(Cat, args));
    assert Calls(Prim(Cat, args)) == [];
  }

  /** A `main` in which no call is seen keeps itself and no other name. */
  lemma OnlyMain(es: seq<Expr>, kept: set<string>)
    requires |es| == 2 && Least(es, kept) && es[0].Define? && es[0].name == "main" && Calls(es[0]) == []
    requires es[1].Define? && es[1].name == "f" && !es[1].exported
    ensures "main" in kept && "f" !in kept
  {
    hide Calls;
    assert Closed(es, {"main"});
    assert IsRoot(es[0]);
  }

  /** `main` under two layers of metadata is no definition to the pruning, and so no root: it is kept, and
      what it calls is not. */
  lemma LayersHideCalls(kept: set<string>)
    returns (es: seq<Expr>, caller: Expr, callee: Expr)
    ensures DistinctNames(es) && caller in es && callee in es && IsDefinition(callee)
    ensures caller == Metadata(Text(""), Text(""), Metadata(Text(""), Text(""), Define("main", [], Identifier(NameOf(callee)), false)))
    ensures NameOf(callee) in Calls(caller)
    ensures Least(es, kept) ==> caller in Keep(es, kept) && callee !in Keep(es, kept) && !Safe(es, kept) && !OthersReached(es)
  {
    callee := Define("f", [], Text("x"), false);
    var layer := Metadata(Text(""), Text(""), Define("main", [], Identifier("f"), false));
    caller := Metadata(Text(""), Text(""), layer);
    es := [caller, callee];
    assert "f" in Calls(layer.target) && "f" in Calls(layer) && "f" in Calls(caller);
    SeenAndHidden(caller, "f");
    assert Hidden(callee.body) == [] && Hidden(callee) == [];
    hide Calls, AllCalls, Hidden, Safe, HiddenReached, OthersReached, Keep;
    assert DistinctNames(es);
    if Least(es, kept) {
      assert Closed(es, {});
      NoneHidden(es);
      Dangling(es, kept, caller, callee);
    }
  }

  // ----- What is always kept, and what never -----

  /** `e` declares `inner`, bare or under one layer of metadata. */
  predicate Wraps(e: Expr, inner: Expr) {
    (e == inner && !inner.Metadata?) || (e.Metadata? && e.target == inner)
  }

  /** Something that other modules or the linker may ask for. */
  predicate Asked(inner: Expr) {
    (inner.Define? && (inner.exported || inner.name == "main")) || (inner.Shape? && inner.exported)
  }

  /** `main` and every exported definition and shape are kept, and so is all that declares nothing. */
  lemma ExportsStay(es: seq<Expr>, names: set<string>, e: Expr, inner: Expr)
    requires Closed(es, names) && e in es && Wraps(e, inner)
    requires Asked(inner) || !(inner.Define? || inner.Shape? || inner.Import?)
    ensures e in Keep(es, names)
  {
    assert Unwrapped(e) == inner;
    assert Asked(inner) ==> IsRoot(e) && NameOf(e) in names;
    KeepExactly(es, names, e);
  }

  /** A definition that is neither `main` nor exported, and that no definition calls, is removed. */
  lemma UncalledGoes(es: seq<Expr>, names: set<string>, e: Expr, inner: Expr)
    requires Least(es, names) && e in es && Wraps(e, inner) && inner.Define?
    requires forall other, decl | other in es && Wraps(other, decl) && Asked(decl) :: decl.name != inner.name
    requires forall other | other in es && IsDefinition(other) :: inner.name !in Calls(other)
    ensures e !in Keep(es, names)
  {
    var less := names - {inner.name};
    forall root | root in es && IsRoot(root) ensures NameOf(root) in less {
      assert Wraps(root, Unwrapped(root)) && Asked(Unwrapped(root));
    }
    forall other | other in es && IsDefinition(other) && NameOf(other) in less ensures Within(other, less) {
      assert Within(other, names);
    }
    assert Closed(es, less);
    assert Unwrapped(e) == inner;
    KeepExactly(es, names, e);
  }
}
