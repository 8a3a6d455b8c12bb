/** `verify_module` of `src/compiler/analysis/verify.rs`: the tables of a module, and the check of all its
    functions against them. */
module ModuleCheck {
  import opened Ast
  import opened Generator
  import opened Ownership
  import opened Scopes
  import opened Soundness
  import opened Wrappers

  /** One layer of metadata is looked through. */
  function Actual(e: Expr): Expr {
    match e
    case Metadata(_, _, target) => target
    case _ => e
  }

  // ----- The tables -----

  function Register(e: Expr, env: Env): Env {
    match Actual(e)
    case Shape(name, fields, _) => env.(shapes := env.shapes[name := fields])
    case Import(_, symbol, arity) => env.(functions := env.functions[symbol := arity])
    case Define(name, params, _, _) => env.(functions := env.functions[name := |params|])
    case _ => env
  }

  function RegisterAll(es: seq<Expr>, env: Env): Env {
    if es == [] then env else RegisterAll(es[1..], Register(es[0], env))
  }

  const NO_TABLES: Env := Env.Env(map[], map[], map[])

  function Tables(es: seq<Expr>): Env {
    RegisterAll(es, NO_TABLES)
  }

  /** What declares a function of this name. */
  predicate DeclaresFunction(e: Expr, name: string) {
    match Actual(e)
    case Import(_, symbol, _) => symbol == name
    case Define(n, _, _, _) => n == name
    case _ => false
  }

  predicate DeclaresShape(e: Expr, name: string) {
    Actual(e).Shape? && Actual(e).name == name
  }

  lemma {:induction false} TablesExact(es: seq<Expr>, env: Env, name: string)
    ensures var r := RegisterAll(es, env);
      && r.expands == env.expands
      && (name in r.functions <==> name in env.functions || exists e :: e in es && DeclaresFunction(e, name))
      && (name in r.shapes <==> name in env.shapes || exists e :: e in es && DeclaresShape(e, name))
    decreases |es|
  {
    if es != [] {
      TablesExact(es[1..], Register(es[0], env), name);
      assert es == [es[0]] + es[1..];
      assert name in Register(es[0], env).functions <==> name in env.functions || DeclaresFunction(es[0], name);
      assert name in Register(es[0], env).shapes <==> name in env.shapes || DeclaresShape(es[0], name);
    }
  }

  /** What a table says of a name is what its last declaration says: the fields of a shape, the number of
      parameters of a function. */
  lemma {:induction false} LastDeclares(es: seq<Expr>, env: Env, k: nat, name: string)
    requires k < |es|
    ensures DeclaresShape(es[k], name) && (forall j | k < j < |es| :: !DeclaresShape(es[j], name))
      ==> name in RegisterAll(es, env).shapes && RegisterAll(es, env).shapes[name] == Actual(es[k]).fields
    ensures DeclaresFunction(es[k], name) && (forall j | k < j < |es| :: !DeclaresFunction(es[j], name))
      ==> name in RegisterAll(es, env).functions
          && RegisterAll(es, env).functions[name] == (if Actual(es[k]).Define? then |Actual(es[k]).params| else Actual(es[k]).arity)
    decreases |es|
  {
    var next := Register(es[0], env);
    assert forall j | 0 < j < |es| :: es[1..][j - 1] == es[j];
    if k > 0 {
      LastDeclares(es[1..], next, k - 1, name);
    } else {
      if DeclaresShape(es[0], name) && forall j | 0 < j < |es| :: !DeclaresShape(es[j], name) { ShapeStays(es[1..], next, name); }
      if DeclaresFunction(es[0], name) && forall j | 0 < j < |es| :: !DeclaresFunction(es[j], name) { FunctionStays(es[1..], next, name); }
    }
  }

  lemma {:induction false} ShapeStays(es: seq<Expr>, env: Env, name: string)
    requires name in env.shapes && forall j | 0 <= j < |es| :: !DeclaresShape(es[j], name)
    ensures name in RegisterAll(es, env).shapes && RegisterAll(es, env).shapes[name] == env.shapes[name]
    decreases |es|
  {
    if es != [] { ShapeStays(es[1..], Register(es[0], env), name); }
  }

  lemma {:induction false} FunctionStays(es: seq<Expr>, env: Env, name: string)
    requires name in env.functions && forall j | 0 <= j < |es| :: !DeclaresFunction(es[j], name)
    ensures name in RegisterAll(es, env).functions && RegisterAll(es, env).functions[name] == env.functions[name]
    decreases |es|
  {
    if es != [] { FunctionStays(es[1..], Register(es[0], env), name); }
  }

  /** The slots of the expand parameters, counting from `k`. */
  function ExpandSlots(params: seq<Param>, k: nat, slots: map<string, nat>): map<string, nat> {
    if params == [] then slots
    else ExpandSlots(params[1..], k + 1, if params[0].expand then slots[params[0].name := k] else slots)
  }

  /** The slot of a name is the place of the last expand parameter of that name. */
  lemma {:induction false} ExpandsExact(params: seq<Param>, k: nat, slots: map<string, nat>, name: string)
    ensures var r := ExpandSlots(params, k, slots);
      name in r <==> name in slots || exists i :: ExpandedAt(params, i, name)
    ensures forall i | ExpandedAt(params, i, name) && (forall j | i < j < |params| :: !ExpandedAt(params, j, name)) ::
      name in ExpandSlots(params, k, slots) && ExpandSlots(params, k, slots)[name] == k + i
    ensures (forall i :: !ExpandedAt(params, i, name)) && name in slots ==> ExpandSlots(params, k, slots)[name] == slots[name]
    decreases |params|
  {
    if params != [] {
      var next := if params[0].expand then slots[params[0].name := k] else slots;
      ExpandsExact(params[1..], k + 1, next, name);
      forall i | i >= 0 ensures ExpandedAt(params, i + 1, name) <==> ExpandedAt(params[1..], i, name) {}
      assert ExpandedAt(params, 0, name) <==> params[0].expand && params[0].name == name;
      forall i | ExpandedAt(params, i, name) && i > 0 ensures ExpandedAt(params[1..], i - 1, name) {}
    }
  }

  predicate ExpandedAt(params: seq<Param>, i: int, name: string) {
    0 <= i < |params| && params[i].expand && params[i].name == name
  }

  lemma {:induction false} ExpandSlotsBound(params: seq<Param>, k: nat, slots: map<string, nat>)
    requires forall n | n in slots :: slots[n] < k
    ensures forall n | n in ExpandSlots(params, k, slots) :: ExpandSlots(params, k, slots)[n] < k + |params|
    decreases |params|
  {
    if params != [] {
      ExpandSlotsBound(params[1..], k + 1, if params[0].expand then slots[params[0].name := k] else slots);
    }
  }

  // ----- The verdict -----

  /** What a function is checked against. */
  function EnvOf(d: Expr, tables: Env): Env
    requires d.Define?
  {
    tables.(expands := ExpandSlots(d.params, 0, map[]))
  }

  function Verdict(e: Expr, tables: Env): Option<Error> {
    var d := Actual(e);
    if d.Define? && Checked(d.body, EnvOf(d, tables), |d.params|).Err?
    then Some(Checked(d.body, EnvOf(d, tables), |d.params|).error) else None
  }

  /** `verify_module` */
  method VerifyModule(exprs: seq<Expr>) returns (outcome: Outcome)
    ensures outcome.Pass? <==> forall e | e in exprs :: Verdict(e, Tables(exprs)).None?
    ensures outcome.Fail? ==> exists k | 0 <= k < |exprs| ::
      Verdict(exprs[k], Tables(exprs)) == Some(outcome.error) && forall j | 0 <= j < k :: Verdict(exprs[j], Tables(exprs)).None?
  {
    hide Verify;
    var tables := FillTables(exprs);
    var i := 0;
    while i < |exprs|
      invariant i <= |exprs| && forall j | 0 <= j < i :: Verdict(exprs[j], tables).None?
    {
      var actual := Actual(exprs[i]);
      if actual.Define? {
        var verdict := VerifyFunction(actual, tables);
        if verdict.Fail? {
          assert Verdict(exprs[i], tables) == Some(verdict.error);
          return verdict;
        }
      }
      i := i + 1;
    }
    return Pass;
  }

  /** The first pass. */
  method FillTables(exprs: seq<Expr>) returns (tables: Env)
    ensures tables == Tables(exprs)
  {
    tables := NO_TABLES;
    var i := 0;
    while i < |exprs|
      invariant i <= |exprs| && RegisterAll(exprs[i..], tables) == Tables(exprs)
    {
      assert exprs[i..][1..] == exprs[i + 1..];
      var actual := Actual(exprs[i]);
      if actual.Shape? {
        tables := tables.(shapes := tables.shapes[actual.name := actual.fields]);
      } else if actual.Import? {
        tables := tables.(functions := tables.functions[actual.symbol := actual.arity]);
      } else if actual.Define? {
        tables := tables.(functions := tables.functions[actual.name := |actual.params|]);
      }
      i := i + 1;
    }
  }

  /** One function of the second pass: a context with one available slot for each parameter. */
  method VerifyFunction(d: Expr, tables: Env) returns (outcome: Outcome)
    requires d.Define?
    ensures var r := Checked(d.body, EnvOf(d, tables), |d.params|); outcome == if r.Ok? then Pass else Fail(r.error)
  {
    hide Verify;
    var stack: States, stackShapes: Shapes, expandMap: map<string, nat> := [], [], map[];
    var i := 0;
    while i < |d.params|
      invariant i <= |d.params| && stack == seq(i, _ => Available) && stackShapes == seq(i, _ => None)
      invariant ExpandSlots(d.params[i..], i, expandMap) == ExpandSlots(d.params, 0, map[])
    {
      assert d.params[i..][1..] == d.params[i + 1..];
      stack, stackShapes := stack + [Available], stackShapes + [None];
      if d.params[i].expand { expandMap := expandMap[d.params[i].name := i]; }
      i := i + 1;
    }
    var context := new VerificationContext(tables.(expands := expandMap), stack, stackShapes);
    outcome := context.VerifyExpr(d.body);
  }

  /** A function of an accepted module compiles if and only if its stripped body is accepted as well.  Then
      no path uses a value after it was consumed or consumes it twice, every complete path consumes each
      parameter exactly once, the same way as all others, and each bound value is consumed exactly once by
      the end of its scope. */
  lemma ModuleSound(es: seq<Expr>, d: Expr, tr: seq<Event>, aborted: bool)
    requires forall e | e in es :: Verdict(e, Tables(es)).None?
    requires d.Define? && exists e :: e in es && Actual(e) == d
    requires var g := Compiled(d.body, EnvOf(d, Tables(es)), |d.params|); g.Ok? ==> IsFunctionPath(g.value, tr, aborted)
    ensures var second := Checked(Strip(d.body), EnvOf(d, Tables(es)), |d.params|);
      && Answer(Compiled(d.body, EnvOf(d, Tables(es)), |d.params|)) == second
      && (Plain(d.body) ==> second.Ok?)
      && (second.Ok? ==>
            && Follow(tr, ParamLedger(|d.params|)).Some? && (forall id :: Consumptions(tr, id) <= 1)
            && (forall id: nat | ScopeEnd(id) in tr :: Consumptions(tr, id) == 1)
            && (!aborted ==> forall i | 0 <= i < |d.params| ::
                  Consumptions(tr, i) == 1 && (Taken(i) in tr <==> second.value[i].Moved?) && (Dropped(i) in tr <==> second.value[i].Available?)))
  {
    hide Verify, Gen, Strip, Plain, IsFunctionPath, Follow, Consumptions;
    var e :| e in es && Actual(e) == d;
    assert Verdict(e, Tables(es)).None?;
    var env, n := EnvOf(d, Tables(es)), |d.params|;
    var st, sh := seq(n, _ => Available), seq(n, _ => None);
    AcceptedCompiles(d.body, env, st, sh, Params(n), n);
    if Plain(d.body) { PlainStrip(d.body, env, st, sh); }
    if Checked(Strip(d.body), env, n).Ok? {
      AffineSoundness(d.body, env, n, tr, aborted);
      forall id: nat | ScopeEnd(id) in tr ensures Consumptions(tr, id) == 1 {
        LetSoundness(d.body, env, n, tr, aborted, id);
      }
    }
  }
}
