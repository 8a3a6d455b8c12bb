/** What the cap of a hundred rounds does to the pointer inference (`src/compiler/codegen/symbol.rs`):
    how many flags a module has, and a family of modules for which the cap decides. */
module RoundCap {
  import opened Ast
  import opened PtrInference

  // ----- The flags of a module -----

  function Arities(defs: seq<Definition>): nat {
    if defs == [] then 0 else defs[0].arity + 1 + Arities(defs[1..])
  }

  predicate Distinct(defs: seq<Definition>, names: Naming) {
    forall i, j | 0 <= i < j < |defs| :: Keys(defs[i], names) !! Keys(defs[j], names)
  }

  lemma {:induction false} InitialLeaves(d: Definition, defs: seq<Definition>, env: Env, names: Naming)
    requires d.name in env.params && forall i | 0 <= i < |defs| :: Keys(d, names) !! Keys(defs[i], names)
    ensures d.name in Initial(defs, env, names).params && Initial(defs, env, names).params[d.name] == env.params[d.name]
    decreases |defs|
  {
    if defs != [] {
      var next := SetParams(SetReturns(env, defs[0], false, names), defs[0], AllFalse(defs[0].arity), names);
      assert Keys(d, names) !! Keys(defs[0], names) && d.name in Keys(d, names);
      forall i | 0 <= i < |defs[1..]| ensures Keys(d, names) !! Keys(defs[1..][i], names) { assert defs[1..][i] == defs[i + 1]; }
      InitialLeaves(d, defs[1..], next, names);
    }
  }

  lemma {:induction false} InitialArity(defs: seq<Definition>, env: Env, names: Naming, k: nat)
    requires Distinct(defs, names) && k < |defs|
    ensures defs[k].name in Initial(defs, env, names).params
    ensures |Initial(defs, env, names).params[defs[k].name]| == defs[k].arity
    decreases |defs|
  {
    var next := SetParams(SetReturns(env, defs[0], false, names), defs[0], AllFalse(defs[0].arity), names);
    forall i | 0 <= i < |defs[1..]| ensures Keys(defs[0], names) !! Keys(defs[1..][i], names) { assert defs[1..][i] == defs[i + 1]; }
    if k == 0 {
      InitialLeaves(defs[0], defs[1..], next, names);
    } else {
      forall i, j | 0 <= i < j < |defs[1..]| ensures Keys(defs[1..][i], names) !! Keys(defs[1..][j], names) {
        assert Keys(defs[i + 1], names) !! Keys(defs[j + 1], names);
      }
      InitialArity(defs[1..], next, names, k - 1);
    }
  }

  lemma {:induction false} PlacesAre(defs: seq<Definition>, env: Env, names: Naming)
    requires AllKept(defs, env, names) && forall k | 0 <= k < |defs| :: Kept(defs[k], env, names) && |env.params[defs[k].name]| == defs[k].arity
    ensures Places(defs, env, names) == Arities(defs)
    decreases |defs|
  {
    if defs != [] {
      TailKept(defs, env, names);
      assert forall k | 0 <= k < |defs[1..]| :: defs[1..][k] == defs[k + 1];
      PlacesAre(defs[1..], env, names);
    }
  }

  /** Without a name defined twice there are as many flags as parameters and functions. */
  lemma FlagsOfDistinct(defs: seq<Definition>, env: Env, names: Naming)
    requires Distinct(defs, names)
    ensures Coherent(defs, names) && AllKept(defs, Initial(defs, env, names), names)
    ensures Places(defs, Initial(defs, env, names), names) == Arities(defs)
  {
    InitialKept(defs, env, names);
    forall k | 0 <= k < |defs|
      ensures Kept(defs[k], Initial(defs, env, names), names) && |Initial(defs, env, names).params[defs[k].name]| == defs[k].arity
    {
      InitialArity(defs, env, names, k);
    }
    PlacesAre(defs, Initial(defs, env, names), names);
  }

  // ----- A chain of functions -----

  const IDENTITY: Naming := Naming.Naming(x => x, x => x, _ => false)

  function Name(i: nat): string {
    seq(i + 1, _ => 'f')
  }

  /** The `i`th of `n` functions returns what the next one returns; the last one returns a string. */
  function Link(n: nat, i: nat): Definition {
    Definition(Name(i), 0, if i + 1 < n then Apply(Identifier(Name(i + 1)), Nil) else Text(""))
  }

  function Chain(n: nat): seq<Definition> {
    seq(n, i requires 0 <= i < n => Link(n, i))
  }

  lemma NamesDiffer(i: nat, j: nat)
    requires i != j
    ensures Name(i) != Name(j)
  {
    assert |Name(i)| != |Name(j)|;
  }

  lemma ChainDistinct(n: nat)
    ensures Distinct(Chain(n), IDENTITY) && Coherent(Chain(n), IDENTITY)
  {
    forall i, j | 0 <= i < j < n ensures Keys(Chain(n)[i], IDENTITY) !! Keys(Chain(n)[j], IDENTITY) { NamesDiffer(i, j); }
  }

  /** The last `k` functions are known to return pointers, and the one before them too if it is among the
      first `i`. */
  predicate Known(n: nat, k: nat, i: nat, env: Env) {
    forall j | 0 <= j < n :: LinkKnown(n, k, i, j, env)
  }

  predicate LinkKnown(n: nat, k: nat, i: nat, j: nat, env: Env) {
    && Name(j) in env.rets && Name(j) in env.params && env.params[Name(j)] == []
    && (env.rets[Name(j)] <==> j + k >= n || (j + k + 1 == n && j < i))
  }

  lemma KnownKept(n: nat, k: nat, i: nat, env: Env)
    requires Known(n, k, i, env)
    ensures AllKept(Chain(n), env, IDENTITY)
  {
    forall j | 0 <= j < n ensures Kept(Chain(n)[j], env, IDENTITY) { assert LinkKnown(n, k, i, j, env); }
  }

  /** A look at one function. */
  lemma LinkStep(n: nat, k: nat, i: nat, env: Env)
    requires i < n && Known(n, k, i, env)
    ensures Kept(Link(n, i), env, IDENTITY) && Known(n, k, i + 1, Step(Link(n, i), env, IDENTITY))
  {
    var d := Link(n, i);
    assert LinkKnown(n, k, i, i, env);
    if i + 1 < n { assert LinkKnown(n, k, i, i + 1, env); }
    assert Inferred(d, env, IDENTITY) == [] by { assert |Inferred(d, env, IDENTITY)| == 0; }
    assert StepParams(d, env, IDENTITY) == env;
    assert ReturnsPtr(d.body, [], env.rets, IDENTITY) <==> i + 1 + k >= n;
    var next, i1 := Step(d, env, IDENTITY), i + 1;
    forall j | 0 <= j < n ensures LinkKnown(n, k, i1, j, next) {
      assert LinkKnown(n, k, i, j, env);
      if j != i { NamesDiffer(i, j); }
    }
  }

  lemma {:induction false} ChainRound(n: nat, k: nat, i: nat, env: Env)
    requires i <= n && Known(n, k, i, env)
    ensures Coherent(Chain(n), IDENTITY) && AllKept(Chain(n), env, IDENTITY)
    ensures Known(n, k + 1, 0, Round(Chain(n), i, env, IDENTITY))
    decreases n - i
  {
    hide Step, Kept;
    ChainDistinct(n);
    KnownKept(n, k, i, env);
    if i < n {
      LinkStep(n, k, i, env);
      assert Chain(n)[i] == Link(n, i);
      ChainRound(n, k, i + 1, Step(Link(n, i), env, IDENTITY));
    } else {
      var k1 := k + 1;
      forall j | 0 <= j < n ensures LinkKnown(n, k1, 0, j, env) { assert LinkKnown(n, k, i, j, env); }
    }
  }

  lemma {:induction false} ChainRounds(n: nat, m: nat, env: Env)
    requires Known(n, 0, 0, env)
    ensures Coherent(Chain(n), IDENTITY) && AllKept(Chain(n), env, IDENTITY)
    ensures Known(n, m, 0, Rounds(Chain(n), env, m, IDENTITY))
    decreases m
  {
    hide Round;
    ChainDistinct(n);
    KnownKept(n, 0, 0, env);
    if m > 0 {
      ChainRounds(n, m - 1, env);
      ChainRound(n, m - 1, 0, Rounds(Chain(n), env, m - 1, IDENTITY));
    }
  }

  lemma {:induction false} InitialKnown(n: nat, i: nat, env: Env)
    requires i <= n && forall j | 0 <= j < i :: LinkKnown(n, 0, 0, j, env)
    ensures Known(n, 0, 0, Initial(Chain(n)[i..], env, IDENTITY))
    decreases n - i
  {
    if i < n {
      var d := Link(n, i);
      assert Chain(n)[i..][0] == d && Chain(n)[i..][1..] == Chain(n)[i + 1..];
      var next := SetParams(SetReturns(env, d, false, IDENTITY), d, AllFalse(d.arity), IDENTITY);
      forall j | 0 <= j <= i ensures LinkKnown(n, 0, 0, j, next) {
        if j < i {
          assert LinkKnown(n, 0, 0, j, env);
          NamesDiffer(i, j);
        }
      }
      InitialKnown(n, i + 1, next);
    } else {
      assert Chain(n)[i..] == [];
    }
  }

  /** For a chain of functions each of which returns the next one, the hundred rounds reach a solution if and
      only if there are no more than a hundred of them: the cap can end the inference early. */
  lemma CapDecides(n: nat, env: Env)
    ensures Coherent(Chain(n), IDENTITY) && AllKept(Chain(n), Initial(Chain(n), env, IDENTITY), IDENTITY)
    ensures Places(Chain(n), Initial(Chain(n), env, IDENTITY), IDENTITY) == n
    ensures Solution(Chain(n), Rounds(Chain(n), Initial(Chain(n), env, IDENTITY), MAX_ROUNDS, IDENTITY), IDENTITY) <==> n <= MAX_ROUNDS
  {
    hide Rounds, Initial;
    var first := Initial(Chain(n), env, IDENTITY);
    ChainDistinct(n);
    assert Chain(n)[0..] == Chain(n);
    InitialKnown(n, 0, env);
    ChainRounds(n, MAX_ROUNDS, first);
    ChainPlaces(n, env);
    var last := Rounds(Chain(n), first, MAX_ROUNDS, IDENTITY);
    KnownKept(n, MAX_ROUNDS, 0, last);
    if n > MAX_ROUNDS {
      var i := n - MAX_ROUNDS - 1;
      assert LinkKnown(n, MAX_ROUNDS, 0, i, last) && LinkKnown(n, MAX_ROUNDS, 0, i + 1, last);
      assert !Satisfied(Chain(n)[i], last, IDENTITY);
    } else {
      forall i | 0 <= i < n ensures Satisfied(Chain(n)[i], last, IDENTITY) {
        assert LinkKnown(n, MAX_ROUNDS, 0, i, last);
        assert |Inferred(Chain(n)[i], last, IDENTITY)| == 0;
      }
    }
  }

  lemma ChainPlaces(n: nat, env: Env)
    ensures AllKept(Chain(n), Initial(Chain(n), env, IDENTITY), IDENTITY)
    ensures Places(Chain(n), Initial(Chain(n), env, IDENTITY), IDENTITY) == n
  {
    ChainDistinct(n);
    FlagsOfDistinct(Chain(n), env, IDENTITY);
    ArityNone(Chain(n));
  }

  lemma {:induction false} ArityNone(defs: seq<Definition>)
    requires forall k | 0 <= k < |defs| :: defs[k].arity == 0
    ensures Arities(defs) == |defs|
    decreases |defs|
  {
    if defs != [] { ArityNone(defs[1..]); }
  }
}
