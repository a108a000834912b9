/** The code of pacal/distr_family.py as written, where it departs from what
    it evidently intends. The rest of the model uses the intended behaviour;
    each definition here is paired with a lemma that exhibits the departure. */
module AsWritten {
  import opened Options
  import opened Names
  import opened Distributions
  import opened Expressions
  import opened Families

  /** `_detect_used_params` as written: the probe is the tracking dictionary
      whose stored entries are the declared names, so a refined expression
      inside the probed one copies those entries into a plain dictionary and
      its lookups go unrecorded. */
  function DetectAsWritten(declared: seq<string>, e: Expr): (r: seq<string>)
    ensures StrictlySorted(r)
    ensures forall k :: k in r <==> k in Run(e, Probe(set k | k in declared)).log
  {
    SortUnique(Run(e, Probe(set k | k in declared)).log)
  }

  /** `merge` with the as-written usage detection; non-family operands are
      wrapped as intended (`Lift`). The detected names are sorted and never
      more than the intended ones, and the same as them unless an operand's
      expression holds a refinement. */
  function MergeAsWritten(op: Combiner, os: seq<Operand>): (f: Family)
    ensures f.expr == Merge(op, os).expr
    ensures StrictlySorted(f.names)
    ensures forall k :: k in f.names ==> k in Merge(op, os).names
    ensures !AnyHasRefinement(Exprs(Lifted(os))) ==> f.names == Merge(op, os).names
  {
    var fs := Lifted(os);
    var e := Combine(op, Exprs(fs));
    var declared := SortUnique(AllNames(fs));
    AsWrittenLogWithin(e, set k | k in declared);
    var f := Family(DetectAsWritten(declared, e), e);
    if AnyHasRefinement(Exprs(fs)) then
      f
    else
      DetectAgreesWithoutRefinement(declared, e);
      f
  }

  /** As written, a refined expression contributes no names to detection. */
  lemma AsWrittenProbeSkipsRefinement(fixed: map<string, real>, inner: Expr, declared: set<string>)
    ensures Run(Refined(fixed, inner), Probe(declared)).log == []
  {
    DictLogsNothing(inner, fixed + Dummy(declared));
  }

  /** The as-written probe records only keys the intended probe records too,
      and completes only where the intended probe completes: a refined
      expression records nothing, and its plain dictionary can only add a
      missing-key failure. */
  lemma {:induction false} AsWrittenLogWithin(e: Expr, declared: set<string>)
    ensures forall k :: k in Run(e, Probe(declared)).log ==> k in Run(e, ProbeThrough(map[])).log
    ensures Run(e, Probe(declared)).result.Some? ==> Run(e, ProbeThrough(map[])).result.Some?
    decreases e
  {
    match e
    case Lit(_) =>
    case Prim(_, ts) =>
      ProbesAgreeArgs(ts, declared);
    case Combine(_, es) =>
      AsWrittenLogWithinAll(es, declared);
    case Refined(fixed, inner) =>
      AsWrittenProbeSkipsRefinement(fixed, inner, declared);
      DictDefinedIff(inner, fixed, Dummy(declared));
      assert Enter(fixed, ProbeThrough(map[])) == ProbeThrough(fixed) by {
        assert fixed + map[] == fixed;
      }
    case Raise =>
  }

  lemma {:induction false} AsWrittenLogWithinAll(es: seq<Expr>, declared: set<string>)
    ensures forall k :: k in RunAll(es, Probe(declared)).log ==> k in RunAll(es, ProbeThrough(map[])).log
    ensures RunAll(es, Probe(declared)).result.Some? ==> RunAll(es, ProbeThrough(map[])).result.Some?
    decreases es
  {
    if |es| > 0 {
      AsWrittenLogWithin(es[0], declared);
      AsWrittenLogWithinAll(es[1..], declared);
    }
  }

  predicate HasRefinement(e: Expr)
    decreases e
  {
    match e
    case Refined(_, _) => true
    case Combine(_, es) => AnyHasRefinement(es)
    case _ => false
  }

  predicate AnyHasRefinement(es: seq<Expr>)
    decreases es
  {
    |es| > 0 && (HasRefinement(es[0]) || AnyHasRefinement(es[1..]))
  }

  /** Away from refinements the two probes behave alike, so the departure is
      confined to families built on a refined family. */
  lemma {:induction false} ProbesAgreeWithoutRefinement(e: Expr, declared: set<string>)
    requires !HasRefinement(e)
    ensures Run(e, Probe(declared)) == Run(e, ProbeThrough(map[]))
    decreases e
  {
    match e
    case Lit(_) =>
    case Prim(_, ts) =>
      ProbesAgreeArgs(ts, declared);
    case Combine(_, es) =>
      ProbesAgreeAll(es, declared);
    case Raise =>
  }

  lemma {:induction false} ProbesAgreeAll(es: seq<Expr>, declared: set<string>)
    requires !AnyHasRefinement(es)
    ensures RunAll(es, Probe(declared)) == RunAll(es, ProbeThrough(map[]))
    decreases es
  {
    if |es| > 0 {
      ProbesAgreeWithoutRefinement(es[0], declared);
      ProbesAgreeAll(es[1..], declared);
    }
  }

  lemma {:induction false} ProbesAgreeArgs(ts: seq<Term>, declared: set<string>)
    ensures RunArgs(ts, Probe(declared)) == RunArgs(ts, ProbeThrough(map[]))
  {
    if |ts| > 0 {
      ProbesAgreeArgs(ts[1..], declared);
    }
  }

  lemma DetectAgreesWithoutRefinement(declared: seq<string>, e: Expr)
    requires !HasRefinement(e)
    ensures DetectAsWritten(declared, e) == Detect(e)
  {
    ProbesAgreeWithoutRefinement(e, set k | k in declared);
  }

  /** As written, a family combined from one refined family alone (its
      `trunc` or `censor`) is detected to have no names at all. */
  lemma UnaryOfRefinedHasNoNames(op: Combiner, names: seq<string>, fixed: map<string, real>, inner: Expr)
    ensures MergeAsWritten(op, [Fam(Family(names, Refined(fixed, inner)))]).names == []
  {
    var os := [Fam(Family(names, Refined(fixed, inner)))];
    var fs := Lifted(os);
    var d := set k | k in SortUnique(AllNames(fs));
    var es := Exprs(fs);
    assert es == [Refined(fixed, inner)];
    AsWrittenProbeSkipsRefinement(fixed, inner, d);
    assert es[1..] == [];
    assert RunAll(es, Probe(d)).log == [] by {
      var h := Run(es[0], Probe(d));
      if h.result.Some? {
        assert RunAll(es, Probe(d)).log == h.log + RunAll(es[1..], Probe(d)).log;
      }
    }
    assert Run(Combine(op, es), Probe(d)).log == [];
  }

  /** What the loop variable `i` of `merge` names: the argument at an index
      itself, or the wrapper family built for it. */
  datatype Binding = Argument(index: nat) | Wrapper(index: nat)

  /** What `i` is bound to in iteration `j`: the argument itself, or the
      wrapper family that replaces a non-family argument. */
  function BoundAt(args: seq<Operand>, j: nat): Binding
    requires j < |args|
  {
    if args[j].Fam? then Argument(j) else Wrapper(j)
  }

  /** The loop `for i in args: if not isinstance(i, DistrFamily): i =
      DistrFamily([], lambda _: i)` from position `k` on, `i` currently bound
      to `current`; returns what `i` names when the loop ends: the binding of
      the last iteration, or `current` when no iteration is left. */
  function LoopEnd(args: seq<Operand>, k: nat, current: Option<Binding>): (r: Option<Binding>)
    requires k <= |args|
    ensures k == |args| ==> r == current
    ensures k < |args| ==> r == Some(BoundAt(args, |args| - 1))
    decreases |args| - k
  {
    if k == |args| then current
    else LoopEnd(args, k + 1, Some(BoundAt(args, k)))
  }

  /** What every wrapper built by `merge` returns once instantiated: the lambda
      reads the variable `i` when it is called, after the loop has ended, not
      the value `i` had when the lambda was made. So it returns the last
      entry of `new_args`, whatever wrapper it is. */
  function WrapperYieldAsWritten(args: seq<Operand>): (r: Option<Binding>)
    ensures |args| == 0 ==> r == None
    ensures |args| > 0 ==> r == Some(BoundAt(args, |args| - 1))
  {
    LoopEnd(args, 0, None)
  }

  /** The binding names a `DistrFamily` object rather than a distribution or
      a number. */
  predicate IsFamilyObject(args: seq<Operand>, b: Binding) {
    match b
    case Argument(j) => j < |args| && args[j].Fam?
    case Wrapper(j) => j < |args|
  }

  /** As written, a wrapped non-family operand never yields its value: every
      wrapper yields the last object of `new_args`, which is a family. */
  lemma WrappedConstantLost(args: seq<Operand>, j: nat)
    requires j < |args| && args[j].Constant?
    ensures WrapperYieldAsWritten(args).Some?
    ensures IsFamilyObject(args, WrapperYieldAsWritten(args).value)
  {
  }

  /** `F + 2.0`: the wrapper for `2.0` yields itself, a `DistrFamily`, so the
      combiner is handed a family instead of the number; with the intended
      wrapping the sum is taken with the constant. */
  lemma AddConstantExample(f: Family, m: map<string, real>)
    ensures WrapperYieldAsWritten([Fam(f), Constant(Const(2.0))]) == Some(Wrapper(1))
    ensures Instantiate(Add(f, Constant(Const(2.0))), m) ==
      if Instantiate(f, m).Some? then Some(Sum(Instantiate(f, m).value, Const(2.0))) else None
  {
  }
}
