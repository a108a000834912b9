/** Expression functions as inspectable trees, and the one evaluator that runs
    them against a parameter mapping.

    A family's expression function maps a `name -> value` mapping to a
    distribution. Instead of a closure it is a tree: distributions written out
    literally, distribution constructors whose scalar arguments read the
    mapping, the combined expression built by `merge`, the wrapped expression
    built by `refine`, and an expression that raises.

    The mapping an expression is run against is one of three kinds: an ordinary
    dictionary, the tracking dictionary of usage detection as the code builds
    it, and the tracking dictionary as usage detection evidently intends it.
    Running yields a `Trace`: the keys whose lookup was recorded, in order, and
    the distribution, or `None` where the code raises. */
module Expressions {
  import opened Options
  import opened Names
  import opened Distributions

  /** A scalar argument: a number, or the lookup `params[name]`. */
  datatype Term = Num(c: real) | Param(name: string)

  /** The combining functions `merge` is called with. */
  datatype Combiner =
    | Plus                          // lambda x, y: x + y
    | Times                         // lambda x, y: x * y
    | Over                          // lambda x, y: x / y
    | TruncTo(a: real, b: real)     // lambda x: x.trunc(a, b)
    | CensorTo(a: real, b: real)    // lambda x: x.censor(a, b)

  datatype Expr =
    /** `lambda _: d`: ignores the mapping. */
    | Lit(d: Distr)
    /** `lambda p: Kind(t1, t2, ...)`, arguments looked up left to right. */
    | Prim(kind: string, args: seq<Term>)
    /** The `expr` closure of `merge`: every operand against the same mapping,
        in order, then the combiner applied to the results. */
    | Combine(op: Combiner, operands: seq<Expr>)
    /** The `new_expr` closure of `refine`: the wrapped expression run against
        `dict(fixed)` updated with the mapping. */
    | Refined(fixed: map<string, real>, inner: Expr)
    /** An expression function that raises. */
    | Raise

  datatype Env =
    /** A plain dictionary: a missing key raises `KeyError`; nothing is recorded. */
    | Dict(m: map<string, real>)
    /** The tracking dictionary as the code builds it: every subscript is
        recorded and answered with the placeholder, whatever the key; its
        stored entries are the declared names, each with the placeholder. */
    | Probe(declared: set<string>)
    /** The tracking dictionary seen through refinements: keys fixed by an
        enclosing refinement are answered from `answered` without being
        recorded; every other key is recorded and answered with the
        placeholder. */
    | ProbeThrough(answered: map<string, real>)

  datatype Trace<+T> = Trace(log: seq<string>, result: Option<T>)

  /** The value the tracking dictionary answers every lookup with. */
  const Placeholder: real := 1.0

  /** `{k: 1.0 for k in declared}`: the stored entries of the tracking dictionary. */
  function Dummy(declared: set<string>): (m: map<string, real>)
    ensures m.Keys == declared
    ensures forall k :: k in m ==> m[k] == Placeholder
  {
    map k | k in declared :: Placeholder
  }

  /** The number of distributions each combiner takes. */
  function Arity(op: Combiner): nat {
    if op.TruncTo? || op.CensorTo? then 1 else 2
  }

  /** Calls the combiner on the operands' distributions; a call with the wrong
      number of arguments raises `TypeError`. */
  function Apply(op: Combiner, ds: seq<Distr>): (r: Option<Distr>)
    ensures r.Some? <==> |ds| == Arity(op)
  {
    match op
    case Plus => if |ds| == 2 then Some(Sum(ds[0], ds[1])) else None
    case Times => if |ds| == 2 then Some(Product(ds[0], ds[1])) else None
    case Over => if |ds| == 2 then Some(Quotient(ds[0], ds[1])) else None
    case TruncTo(a, b) => if |ds| == 1 then Some(Truncated(ds[0], a, b)) else None
    case CensorTo(a, b) => if |ds| == 1 then Some(Censored(ds[0], a, b)) else None
  }

  /** `env[k]`. A plain dictionary raises exactly on a missing key and records
      nothing. The tracking dictionary records every key, declared or not, and
      answers the placeholder. The seen-through probe answers a key fixed by an
      enclosing refinement with its fixed value, unrecorded. */
  function Lookup(env: Env, k: string): (t: Trace<real>)
    ensures t.result.None? <==> env.Dict? && k !in env.m
    ensures env.Dict? ==> t.log == [] && (k in env.m ==> t.result.value == env.m[k])
    ensures env.Probe? ==> t == Trace([k], Some(Placeholder))
    ensures env.ProbeThrough? ==>
      t == if k in env.answered then Trace([], Some(env.answered[k])) else Trace([k], Some(Placeholder))
  {
    match env
    case Dict(m) => Trace([], if k in m then Some(m[k]) else None)
    case Probe(_) => Trace([k], Some(Placeholder))
    case ProbeThrough(g) =>
      if k in g then Trace([], Some(g[k])) else Trace([k], Some(Placeholder))
  }

  /** The mapping a refined expression hands to the expression it wraps:
      `full = dict(fixed); full.update(params)`. For the tracking dictionary
      `update` copies its stored entries without calling its `__getitem__`,
      so the result is a plain dictionary and later lookups are not recorded.
      In every case the keys are those of both, and on a shared key the
      entry of `env` wins. */
  function Enter(fixed: map<string, real>, env: Env): (r: Env)
    ensures env.Dict? ==>
      && r.Dict? && r.m.Keys == fixed.Keys + env.m.Keys
      && forall k :: k in r.m ==> r.m[k] == if k in env.m then env.m[k] else fixed[k]
    ensures env.Probe? ==>
      && r.Dict? && r.m.Keys == fixed.Keys + env.declared
      && forall k :: k in r.m ==> r.m[k] == if k in env.declared then Placeholder else fixed[k]
    ensures env.ProbeThrough? ==>
      && r.ProbeThrough? && r.answered.Keys == fixed.Keys + env.answered.Keys
      && forall k :: k in r.answered ==> r.answered[k] == if k in env.answered then env.answered[k] else fixed[k]
  {
    match env
    case Dict(m) => Dict(fixed + m)
    case Probe(declared) => Dict(fixed + Dummy(declared))
    case ProbeThrough(g) => ProbeThrough(fixed + g)
  }

  function Value(t: Term, env: Env): Trace<real> {
    match t
    case Num(c) => Trace([], Some(c))
    case Param(k) => Lookup(env, k)
  }

  /** Evaluates constructor arguments left to right, stopping at the first
      lookup that raises. */
  function RunArgs(ts: seq<Term>, env: Env): (r: Trace<seq<real>>)
    ensures r.result.Some? <==> forall i :: 0 <= i < |ts| ==> Value(ts[i], env).result.Some?
    ensures r.result.Some? ==> |r.result.value| == |ts|
    ensures r.result.Some? ==>
      forall i :: 0 <= i < |ts| ==> r.result.value[i] == Value(ts[i], env).result.value
    ensures env.ProbeThrough? ==> forall k :: k in r.log ==> k !in env.answered
  {
    if |ts| == 0 then
      Trace([], Some([]))
    else
      var h := Value(ts[0], env);
      if h.result.None? then
        Trace(h.log, None)
      else
        var t := RunArgs(ts[1..], env);
        Trace(h.log + t.log,
              if t.result.Some? then Some([h.result.value] + t.result.value) else None)
  }

  /** Runs an expression function against a mapping: `expr_func(params)`.
      Seen through refinements, the probe never records a key that an
      enclosing refinement fixes. */
  function Run(e: Expr, env: Env): (r: Trace<Distr>)
    ensures env.ProbeThrough? ==> forall k :: k in r.log ==> k !in env.answered
    decreases e
  {
    match e
    case Lit(d) => Trace([], Some(d))
    case Prim(kind, ts) =>
      var a := RunArgs(ts, env);
      Trace(a.log, if a.result.Some? then Some(Base(kind, a.result.value)) else None)
    case Combine(op, es) =>
      var a := RunAll(es, env);
      Trace(a.log, if a.result.Some? then Apply(op, a.result.value) else None)
    case Refined(fixed, inner) => Run(inner, Enter(fixed, env))
    case Raise => Trace([], None)
  }

  /** `[i.instantiate(params) for i in operands]`: every operand against the same
      mapping, in order, stopping at the first that raises. */
  function RunAll(es: seq<Expr>, env: Env): (r: Trace<seq<Distr>>)
    ensures r.result.Some? <==> forall i :: 0 <= i < |es| ==> Run(es[i], env).result.Some?
    ensures r.result.Some? ==> |r.result.value| == |es|
    ensures r.result.Some? ==>
      forall i :: 0 <= i < |es| ==> r.result.value[i] == Run(es[i], env).result.value
    ensures env.ProbeThrough? ==> forall k :: k in r.log ==> k !in env.answered
    decreases es
  {
    if |es| == 0 then
      Trace([], Some([]))
    else
      var h := Run(es[0], env);
      if h.result.None? then
        Trace(h.log, None)
      else
        var t := RunAll(es[1..], env);
        Trace(h.log + t.log,
              if t.result.Some? then Some([h.result.value] + t.result.value) else None)
  }

  /** Probing seen through refinements records, for an expression under keys
      fixed by refinements, exactly what probing the bare expression records
      minus the fixed keys; whether it completes does not depend on them. */
  lemma {:induction false} ThroughFilters(e: Expr, g: map<string, real>)
    ensures Run(e, ProbeThrough(g)).log == Without(Run(e, ProbeThrough(map[])).log, g.Keys)
    ensures Run(e, ProbeThrough(g)).result.Some? == Run(e, ProbeThrough(map[])).result.Some?
    decreases e
  {
    match e
    case Lit(_) =>
    case Prim(_, ts) =>
      ThroughFiltersArgs(ts, g);
    case Combine(_, es) =>
      ThroughFiltersAll(es, g);
    case Refined(f, inner) =>
      ThroughFilters(inner, f + g);
      ThroughFilters(inner, f);
      assert f + map[] == f;
      assert (f + g).Keys == f.Keys + g.Keys;
      WithoutTwice(Run(inner, ProbeThrough(map[])).log, f.Keys, g.Keys);
    case Raise =>
  }

  lemma {:induction false} ThroughFiltersAll(es: seq<Expr>, g: map<string, real>)
    ensures RunAll(es, ProbeThrough(g)).log == Without(RunAll(es, ProbeThrough(map[])).log, g.Keys)
    ensures RunAll(es, ProbeThrough(g)).result.Some? == RunAll(es, ProbeThrough(map[])).result.Some?
    decreases es
  {
    if |es| > 0 {
      ThroughFilters(es[0], g);
      ThroughFiltersAll(es[1..], g);
      WithoutAppend(Run(es[0], ProbeThrough(map[])).log, RunAll(es[1..], ProbeThrough(map[])).log, g.Keys);
    }
  }

  lemma {:induction false} ThroughFiltersArgs(ts: seq<Term>, g: map<string, real>)
    ensures RunArgs(ts, ProbeThrough(g)).log == Without(RunArgs(ts, ProbeThrough(map[])).log, g.Keys)
    ensures RunArgs(ts, ProbeThrough(g)).result.Some?
  {
    if |ts| > 0 {
      ThroughFiltersArgs(ts[1..], g);
      var h0 := Value(ts[0], ProbeThrough(map[])).log;
      assert Value(ts[0], ProbeThrough(g)).log == Without(h0, g.Keys) by {
        if ts[0].Param? {
          assert h0 == [ts[0].name];
          assert h0[1..] == [];
        }
      }
      WithoutAppend(h0, RunArgs(ts[1..], ProbeThrough(map[])).log, g.Keys);
    }
  }

  /** Running against the plain dictionary `g + m` succeeds exactly when the
      seen-through probe under `g` completes and every key it records is in
      `m`: reading the same keys, the run fails only at a missing key or where
      the probe fails too. */
  lemma {:induction false} DictDefinedIff(e: Expr, g: map<string, real>, m: map<string, real>)
    ensures Run(e, Dict(g + m)).result.Some? <==>
      Run(e, ProbeThrough(g)).result.Some? && forall k :: k in Run(e, ProbeThrough(g)).log ==> k in m
    decreases e
  {
    match e
    case Lit(_) =>
    case Prim(_, ts) =>
      DictDefinedIffArgs(ts, g, m);
    case Combine(_, es) =>
      DictDefinedIffAll(es, g, m);
    case Refined(f, inner) =>
      DictDefinedIff(inner, f + g, m);
      assert f + (g + m) == (f + g) + m;
    case Raise =>
  }

  lemma {:induction false} DictDefinedIffAll(es: seq<Expr>, g: map<string, real>, m: map<string, real>)
    ensures RunAll(es, Dict(g + m)).result.Some? <==>
      RunAll(es, ProbeThrough(g)).result.Some? && forall k :: k in RunAll(es, ProbeThrough(g)).log ==> k in m
    decreases es
  {
    if |es| > 0 {
      DictDefinedIff(es[0], g, m);
      DictDefinedIffAll(es[1..], g, m);
    }
  }

  lemma {:induction false} DictDefinedIffArgs(ts: seq<Term>, g: map<string, real>, m: map<string, real>)
    ensures RunArgs(ts, Dict(g + m)).result.Some? <==>
      RunArgs(ts, ProbeThrough(g)).result.Some? && forall k :: k in RunArgs(ts, ProbeThrough(g)).log ==> k in m
  {
    if |ts| > 0 {
      DictDefinedIffArgs(ts[1..], g, m);
    }
  }

  /** When every operand completes, the combined run records exactly the keys
      some operand records. */
  lemma {:induction false} CompleteLogIsUnion(es: seq<Expr>, env: Env)
    requires RunAll(es, env).result.Some?
    ensures forall k :: k in RunAll(es, env).log <==> exists i :: 0 <= i < |es| && k in Run(es[i], env).log
    decreases es
  {
    if |es| > 0 {
      CompleteLogIsUnion(es[1..], env);
      forall k
        ensures k in RunAll(es, env).log <==> exists i :: 0 <= i < |es| && k in Run(es[i], env).log
      {
        if k in RunAll(es[1..], env).log {
          var i :| 0 <= i < |es[1..]| && k in Run(es[1..][i], env).log;
          assert k in Run(es[i + 1], env).log;
        }
        if exists i :: 0 <= i < |es| && k in Run(es[i], env).log {
          var i :| 0 <= i < |es| && k in Run(es[i], env).log;
          if i > 0 {
            assert es[1..][i - 1] == es[i];
          }
        }
      }
    }
  }

  /** When operand `j` is the first to fail, the combined run fails and records
      the keys operands `0..j` record, and nothing from later operands. */
  lemma {:induction false} FailureKeepsEarlierReads(es: seq<Expr>, env: Env, j: nat)
    requires j < |es|
    requires forall i :: 0 <= i < j ==> Run(es[i], env).result.Some?
    requires Run(es[j], env).result.None?
    ensures RunAll(es, env).result.None?
    ensures forall k :: k in RunAll(es, env).log <==> exists i :: 0 <= i <= j && k in Run(es[i], env).log
    decreases j
  {
    if j > 0 {
      assert es[1..][j - 1] == es[j];
      assert forall i :: 0 <= i < j - 1 ==> es[1..][i] == es[i + 1];
      FailureKeepsEarlierReads(es[1..], env, j - 1);
      forall k
        ensures k in RunAll(es, env).log <==> exists i :: 0 <= i <= j && k in Run(es[i], env).log
      {
        if k in RunAll(es[1..], env).log {
          var i :| 0 <= i <= j - 1 && k in Run(es[1..][i], env).log;
          assert k in Run(es[i + 1], env).log;
        }
        if exists i :: 0 <= i <= j && k in Run(es[i], env).log {
          var i :| 0 <= i <= j && k in Run(es[i], env).log;
          if i > 0 {
            assert es[1..][i - 1] == es[i];
          }
        }
      }
    }
  }

  /** A plain dictionary records nothing, however deeply refinements nest. */
  lemma {:induction false} DictLogsNothing(e: Expr, m: map<string, real>)
    ensures Run(e, Dict(m)).log == []
    decreases e
  {
    match e
    case Lit(_) =>
    case Prim(_, ts) =>
      DictLogsNothingArgs(ts, m);
    case Combine(_, es) =>
      DictLogsNothingAll(es, m);
    case Refined(f, inner) =>
      DictLogsNothing(inner, f + m);
    case Raise =>
  }

  lemma {:induction false} DictLogsNothingAll(es: seq<Expr>, m: map<string, real>)
    ensures RunAll(es, Dict(m)).log == []
    decreases es
  {
    if |es| > 0 {
      DictLogsNothing(es[0], m);
      DictLogsNothingAll(es[1..], m);
    }
  }

  lemma {:induction false} DictLogsNothingArgs(ts: seq<Term>, m: map<string, real>)
    ensures RunArgs(ts, Dict(m)).log == []
  {
    if |ts| > 0 {
      DictLogsNothingArgs(ts[1..], m);
    }
  }

  /** Constructor arguments that all evaluate give their values, in order. */
  lemma ArgsValues(ts: seq<Term>, env: Env, vs: seq<real>)
    requires |ts| == |vs|
    requires forall i :: 0 <= i < |ts| ==> Value(ts[i], env).result == Some(vs[i])
    ensures RunArgs(ts, env).result == Some(vs)
  {
    var r := RunArgs(ts, env).result;
    assert r.Some?;
    assert r.value == vs;
  }
}
