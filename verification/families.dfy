/** `DistrFamily` (pacal/distr_family.py): a list of parameter names and an
    expression function, the usage detection run at construction, `instantiate`,
    the combinators built on `merge`, `refine`, and the name/vector pairing of
    `estimate`. Families are immutable values: every operation builds a new one
    and leaves its operands as they were. The code instead keeps references to
    the caller's `fixed_params` dict and, without detection, to the caller's
    name list, so later changes by the caller are not modelled. */
module Families {
  import opened Options
  import opened Names
  import opened Distributions
  import opened Expressions

  datatype Family = Family(names: seq<string>, expr: Expr)

  /** The keys an expression function looks up when probed, in order, with
      repeats: the `used` list of usage detection. */
  function Reads(e: Expr): seq<string> {
    Run(e, ProbeThrough(map[])).log
  }

  /** The probe runs the expression function to the end without raising. */
  ghost predicate Completes(e: Expr) {
    Run(e, ProbeThrough(map[])).result.Some?
  }

  /** The names are sorted, free of duplicates, and exactly the names the
      expression function reads: what construction with usage detection
      establishes. */
  ghost predicate WellFormed(f: Family) {
    StrictlySorted(f.names) && forall k :: k in f.names <==> k in Reads(f.expr)
  }

  /** `_detect_used_params`: probe once, keep `sorted(set(used))`. A failure
      during the probe is swallowed: the names recorded before it are kept. The
      tracking dictionary answers every key, so the declared names play no
      part in the result. */
  function Detect(e: Expr): (r: seq<string>)
    ensures StrictlySorted(r)
    ensures forall k :: k in r <==> k in Reads(e)
  {
    SortUnique(Reads(e))
  }

  /** `DistrFamily(param_names, expr_func, delete_unused_params)`. */
  function New(declared: seq<string>, e: Expr, deleteUnused: bool): (f: Family)
    ensures f.expr == e
    ensures deleteUnused ==> WellFormed(f)
    ensures !deleteUnused ==> f.names == declared
  {
    Family(if deleteUnused then Detect(e) else declared, e)
  }

  /** `instantiate(param_dict)`: the expression function applied to the mapping,
      with no check of its keys. */
  function Instantiate(f: Family, m: map<string, real>): (r: Option<Distr>)
    ensures r.Some? <==> Completes(f.expr) && forall k :: k in Reads(f.expr) ==> k in m
  {
    DictDefinedIff(f.expr, map[], m);
    assert map[] + m == m;
    Run(f.expr, Dict(m)).result
  }

  /** For a well-formed family, instantiation succeeds exactly when the probe
      completes and the mapping has every one of the family's names. */
  lemma InstantiateNeedsNames(f: Family, m: map<string, real>)
    requires WellFormed(f)
    ensures Instantiate(f, m).Some? <==> Completes(f.expr) && forall k :: k in f.names ==> k in m
  {
  }

  /** An argument of `merge`: a family, or any other value, which `merge`
      wraps into a family. */
  datatype Operand = Fam(family: Family) | Constant(d: Distr)

  /** The wrapping loop of `merge`: `DistrFamily([], lambda _: i)` for a
      non-family operand. */
  function Lift(o: Operand): (f: Family)
    ensures o.Fam? ==> f == o.family
    ensures o.Constant? ==> WellFormed(f) && f.names == [] && Completes(f.expr)
    ensures o.Constant? ==> forall m :: Instantiate(f, m) == Some(o.d)
  {
    match o
    case Fam(family) => family
    case Constant(d) => New([], Lit(d), true)
  }

  function Lifted(os: seq<Operand>): (fs: seq<Family>)
    ensures |fs| == |os|
    ensures forall i :: 0 <= i < |os| ==> fs[i] == Lift(os[i])
  {
    seq(|os|, i requires 0 <= i < |os| => Lift(os[i]))
  }

  function Exprs(fs: seq<Family>): (es: seq<Expr>)
    ensures |es| == |fs|
    ensures forall i :: 0 <= i < |fs| ==> es[i] == fs[i].expr
  {
    seq(|fs|, i requires 0 <= i < |fs| => fs[i].expr)
  }

  /** Every operand's names, one operand after another. */
  function AllNames(fs: seq<Family>): (r: seq<string>)
    ensures forall k :: k in r <==> exists i :: 0 <= i < |fs| && k in fs[i].names
  {
    if |fs| == 0 then
      []
    else
      var rest := AllNames(fs[1..]);
      assert forall k :: k in rest <==> exists i :: 1 <= i < |fs| && k in fs[i].names by {
        forall k | k in rest
          ensures exists i :: 1 <= i < |fs| && k in fs[i].names
        {
          var i :| 0 <= i < |fs[1..]| && k in fs[1..][i].names;
          assert fs[1..][i] == fs[i + 1];
        }
        forall k | exists i :: 1 <= i < |fs| && k in fs[i].names
          ensures k in rest
        {
          var i :| 1 <= i < |fs| && k in fs[i].names;
          assert fs[1..][i - 1] == fs[i];
        }
      }
      fs[0].names + rest
  }

  /** Instantiates every family against the same mapping, in order; fails as
      soon as one fails. */
  function InstantiateAll(fs: seq<Family>, m: map<string, real>): (r: Option<seq<Distr>>)
    ensures r.Some? <==> forall i :: 0 <= i < |fs| ==> Instantiate(fs[i], m).Some?
    ensures r.Some? ==> |r.value| == |fs|
    ensures r.Some? ==> forall i :: 0 <= i < |fs| ==> r.value[i] == Instantiate(fs[i], m).value
  {
    RunAll(Exprs(fs), Dict(m)).result
  }

  /** `merge(comb_func, *args)`: wraps the non-family operands, declares the
      union of the operands' names (`list(set(...))`, whose order does not
      matter), and builds a family whose expression instantiates every operand
      against the shared mapping and combines the results. The new family goes
      through usage detection. */
  function Merge(op: Combiner, os: seq<Operand>): (f: Family)
    ensures WellFormed(f)
    ensures f.expr == Combine(op, Exprs(Lifted(os)))
  {
    var fs := Lifted(os);
    New(SortUnique(AllNames(fs)), Combine(op, Exprs(fs)), true)
  }

  /** Instantiating a merged family instantiates the operands in order against
      the one mapping and applies the combiner; it fails if an operand fails or
      the combiner does not take that many distributions. */
  lemma MergeInstantiates(op: Combiner, os: seq<Operand>, m: map<string, real>)
    ensures Instantiate(Merge(op, os), m) ==
      match InstantiateAll(Lifted(os), m)
      case None => None
      case Some(ds) => Apply(op, ds)
  {
  }

  /** When every operand is well formed and its probe completes, the merged
      family's names are the union of the operands' names. */
  lemma MergeNamesUnion(op: Combiner, os: seq<Operand>)
    requires forall i :: 0 <= i < |os| ==> WellFormed(Lift(os[i])) && Completes(Lift(os[i]).expr)
    ensures forall k :: k in Merge(op, os).names <==> exists i :: 0 <= i < |os| && k in Lift(os[i]).names
  {
    var es := Exprs(Lifted(os));
    var g := ProbeThrough(map[]);
    assert forall i :: 0 <= i < |os| ==> es[i] == Lift(os[i]).expr;
    assert forall i :: 0 <= i < |es| ==> Run(es[i], g).result.Some?;
    CompleteLogIsUnion(es, g);
    assert Reads(Merge(op, os).expr) == RunAll(es, g).log;
    forall k
      ensures k in Merge(op, os).names <==> exists i :: 0 <= i < |os| && k in Lift(os[i]).names
    {
      if exists i :: 0 <= i < |os| && k in Lift(os[i]).names {
        var i :| 0 <= i < |os| && k in Lift(os[i]).names;
        assert k in Run(es[i], g).log;
      }
      if k in RunAll(es, g).log {
        var i :| 0 <= i < |es| && k in Run(es[i], g).log;
        assert k in Lift(os[i]).names;
      }
    }
  }

  /** When operand `j` is the first whose probe fails, the merged family's
      names are those of operands `0..j`: detection stops at the failure. */
  lemma MergeNamesStopAtFailure(op: Combiner, os: seq<Operand>, j: nat)
    requires j < |os|
    requires forall i :: 0 <= i < j ==> Completes(Lift(os[i]).expr)
    requires !Completes(Lift(os[j]).expr)
    requires forall i :: 0 <= i <= j ==> WellFormed(Lift(os[i]))
    ensures forall k :: k in Merge(op, os).names <==> exists i :: 0 <= i <= j && k in Lift(os[i]).names
  {
    var es := Exprs(Lifted(os));
    var g := ProbeThrough(map[]);
    assert forall i :: 0 <= i < |os| ==> es[i] == Lift(os[i]).expr;
    FailureKeepsEarlierReads(es, g, j);
    assert Reads(Merge(op, os).expr) == RunAll(es, g).log;
    forall k
      ensures k in Merge(op, os).names <==> exists i :: 0 <= i <= j && k in Lift(os[i]).names
    {
      if exists i :: 0 <= i <= j && k in Lift(os[i]).names {
        var i :| 0 <= i <= j && k in Lift(os[i]).names;
        assert k in Run(es[i], g).log;
      }
      if k in RunAll(es, g).log {
        var i :| 0 <= i <= j && k in Run(es[i], g).log;
        assert k in Lift(os[i]).names;
      }
    }
  }

  /** The facts shared by the binary operators. */
  lemma BinaryFacts(op: Combiner, f: Family, other: Operand)
    requires Arity(op) == 2
    ensures forall m :: (Instantiate(Merge(op, [Fam(f), other]), m) ==
      if Instantiate(f, m).Some? && Instantiate(Lift(other), m).Some?
      then Apply(op, [Instantiate(f, m).value, Instantiate(Lift(other), m).value])
      else None)
    ensures WellFormed(f) && Completes(f.expr) && WellFormed(Lift(other)) && Completes(Lift(other).expr) ==>
      forall k :: k in Merge(op, [Fam(f), other]).names <==> k in f.names || k in Lift(other).names
  {
    var os := [Fam(f), other];
    forall m
      ensures Instantiate(Merge(op, os), m) ==
        if Instantiate(f, m).Some? && Instantiate(Lift(other), m).Some?
        then Apply(op, [Instantiate(f, m).value, Instantiate(Lift(other), m).value])
        else None
    {
      MergeInstantiates(op, os, m);
      var r := InstantiateAll(Lifted(os), m);
      if r.Some? {
        assert r.value == [Instantiate(f, m).value, Instantiate(Lift(other), m).value];
      }
    }
    if WellFormed(f) && Completes(f.expr) && WellFormed(Lift(other)) && Completes(Lift(other).expr) {
      MergeNamesUnion(op, os);
      forall k
        ensures k in Merge(op, os).names <==> k in f.names || k in Lift(other).names
      {
        assert Lift(os[0]) == f && Lift(os[1]) == Lift(other);
      }
    }
  }

  /** The facts shared by the unary operators. */
  lemma UnaryFacts(op: Combiner, f: Family)
    requires Arity(op) == 1
    ensures forall m :: (Instantiate(Merge(op, [Fam(f)]), m) ==
      if Instantiate(f, m).Some? then Apply(op, [Instantiate(f, m).value]) else None)
    ensures WellFormed(f) ==> Merge(op, [Fam(f)]).names == f.names
  {
    var os := [Fam(f)];
    forall m
      ensures Instantiate(Merge(op, os), m) ==
        if Instantiate(f, m).Some? then Apply(op, [Instantiate(f, m).value]) else None
    {
      MergeInstantiates(op, os, m);
      var r := InstantiateAll(Lifted(os), m);
      if r.Some? {
        assert r.value == [Instantiate(f, m).value];
      }
    }
    if WellFormed(f) {
      var es := Exprs(Lifted(os));
      assert Reads(Combine(op, es)) == Reads(f.expr) by {
        assert es == [f.expr];
        var h := Run(f.expr, ProbeThrough(map[]));
        var t := RunAll(es[1..], ProbeThrough(map[]));
        assert es[1..] == [];
        assert t.log == [];
        assert RunAll(es, ProbeThrough(map[])).log == h.log by {
          if h.result.Some? {
            assert RunAll(es, ProbeThrough(map[])).log == h.log + t.log;
            assert h.log + t.log == h.log;
          }
        }
      }
      SortedUnique(Merge(op, os).names, f.names);
    }
  }

  /** `__add__`: a family whose instantiation is the sum of both operands'
      instantiations against the same mapping. */
  function Add(f: Family, other: Operand): (r: Family)
    ensures WellFormed(r)
    ensures forall m :: (Instantiate(r, m) ==
      if Instantiate(f, m).Some? && Instantiate(Lift(other), m).Some?
      then Some(Sum(Instantiate(f, m).value, Instantiate(Lift(other), m).value))
      else None)
    ensures WellFormed(f) && Completes(f.expr) && WellFormed(Lift(other)) && Completes(Lift(other).expr) ==>
      forall k :: k in r.names <==> k in f.names || k in Lift(other).names
  {
    BinaryFacts(Plus, f, other);
    Merge(Plus, [Fam(f), other])
  }

  /** `__mul__`: the product of both operands' instantiations. */
  function Mul(f: Family, other: Operand): (r: Family)
    ensures WellFormed(r)
    ensures forall m :: (Instantiate(r, m) ==
      if Instantiate(f, m).Some? && Instantiate(Lift(other), m).Some?
      then Some(Product(Instantiate(f, m).value, Instantiate(Lift(other), m).value))
      else None)
    ensures WellFormed(f) && Completes(f.expr) && WellFormed(Lift(other)) && Completes(Lift(other).expr) ==>
      forall k :: k in r.names <==> k in f.names || k in Lift(other).names
  {
    BinaryFacts(Times, f, other);
    Merge(Times, [Fam(f), other])
  }

  /** `__truediv__` as written: it merges with `lambda x, y: x * y`, so its
      instantiation is a product, not a quotient. */
  function Div(f: Family, other: Operand): (r: Family)
    ensures r == Mul(f, other)
    ensures forall m :: (Instantiate(r, m) ==
      if Instantiate(f, m).Some? && Instantiate(Lift(other), m).Some?
      then Some(Product(Instantiate(f, m).value, Instantiate(Lift(other), m).value))
      else None)
  {
    Merge(Times, [Fam(f), other])
  }

  /** Division as evidently intended: the quotient of the operands'
      instantiations. */
  function TrueDiv(f: Family, other: Operand): (r: Family)
    ensures WellFormed(r)
    ensures forall m :: (Instantiate(r, m) ==
      if Instantiate(f, m).Some? && Instantiate(Lift(other), m).Some?
      then Some(Quotient(Instantiate(f, m).value, Instantiate(Lift(other), m).value))
      else None)
    ensures WellFormed(f) && Completes(f.expr) && WellFormed(Lift(other)) && Completes(Lift(other).expr) ==>
      forall k :: k in r.names <==> k in f.names || k in Lift(other).names
  {
    BinaryFacts(Over, f, other);
    Merge(Over, [Fam(f), other])
  }

  /** Dividing really divides: unlike `Div`, the quotient family never
      instantiates to what the product family instantiates to. */
  lemma TrueDivDiffersFromDiv(f: Family, other: Operand, m: map<string, real>)
    requires Instantiate(f, m).Some? && Instantiate(Lift(other), m).Some?
    ensures Instantiate(TrueDiv(f, other), m) != Instantiate(Div(f, other), m)
  {
  }

  /** `trunc(a, b)`: the instantiation truncated to the bounds given at the
      call; the names stay the same. */
  function Trunc(f: Family, a: real, b: real): (r: Family)
    ensures WellFormed(r)
    ensures forall m :: (Instantiate(r, m) ==
      if Instantiate(f, m).Some? then Some(Truncated(Instantiate(f, m).value, a, b)) else None)
    ensures WellFormed(f) ==> r.names == f.names
  {
    UnaryFacts(TruncTo(a, b), f);
    Merge(TruncTo(a, b), [Fam(f)])
  }

  /** `censor(a, b)`: the instantiation censored to the bounds given at the
      call; the names stay the same. */
  function Censor(f: Family, a: real, b: real): (r: Family)
    ensures WellFormed(r)
    ensures forall m :: (Instantiate(r, m) ==
      if Instantiate(f, m).Some? then Some(Censored(Instantiate(f, m).value, a, b)) else None)
    ensures WellFormed(f) ==> r.names == f.names
  {
    UnaryFacts(CensorTo(a, b), f);
    Merge(CensorTo(a, b), [Fam(f)])
  }

  /** What `refine` returns: a narrower family, or the distribution itself. */
  datatype Refinement = Narrowed(family: Family) | Collapsed(distr: Distr)

  function Collapse(d: Option<Distr>): Option<Refinement> {
    match d
    case None => None
    case Some(x) => Some(Collapsed(x))
  }

  /** `refine(fixed_params)`. With names left over it returns a family over
      them, in their original order and without a new detection, whose
      expression overrides `fixed` with the mapping it is given; with none left
      it returns `expr_func(fixed_params)`, which may raise. */
  function Refine(f: Family, fixed: map<string, real>): (r: Option<Refinement>)
    ensures (forall k :: k in f.names ==> k in fixed) <==> !(r.Some? && r.value.Narrowed?)
    ensures !(r.Some? && r.value.Narrowed?) ==> r == Collapse(Instantiate(f, fixed))
    ensures r.Some? && r.value.Narrowed? ==>
      && r.value.family.names == Without(f.names, fixed.Keys)
      && (forall m :: Instantiate(r.value.family, m) == Instantiate(f, fixed + m))
      && (WellFormed(f) ==> WellFormed(r.value.family))
  {
    var remaining := Without(f.names, fixed.Keys);
    if |remaining| == 0 then
      assert remaining == [];
      Collapse(Instantiate(f, fixed))
    else
      assert remaining[0] in f.names && remaining[0] !in fixed;
      NarrowedInstantiates(f, fixed);
      RefinedKeepsWellFormed(f, fixed);
      Some(Narrowed(Family(remaining, Refined(fixed, f.expr))))
  }

  /** The narrowed family runs the original expression against `fixed`
      updated by the mapping it is given. */
  lemma NarrowedInstantiates(f: Family, fixed: map<string, real>)
    ensures forall m :: (Instantiate(Family(Without(f.names, fixed.Keys), Refined(fixed, f.expr)), m) ==
      Instantiate(f, fixed + m))
  {
    forall m
      ensures Instantiate(Family(Without(f.names, fixed.Keys), Refined(fixed, f.expr)), m) ==
        Instantiate(f, fixed + m)
    {
      assert Enter(fixed, Dict(m)) == Dict(fixed + m);
    }
  }

  /** Narrowing keeps the names accurate: the refined expression reads exactly
      the family's names that are not fixed. */
  lemma RefinedKeepsWellFormed(f: Family, fixed: map<string, real>)
    ensures WellFormed(f) ==> WellFormed(Family(Without(f.names, fixed.Keys), Refined(fixed, f.expr)))
  {
    if WellFormed(f) {
      var q := Family(Without(f.names, fixed.Keys), Refined(fixed, f.expr));
      WithoutKeepsSorted(f.names, fixed.Keys);
      assert Enter(fixed, ProbeThrough(map[])) == ProbeThrough(fixed) by {
        assert fixed + map[] == fixed;
      }
      ThroughFilters(f.expr, fixed);
      var bare := Reads(f.expr);
      assert Reads(q.expr) == Without(bare, fixed.Keys);
      forall k
        ensures k in q.names <==> k in Reads(q.expr)
      {
        assert k in q.names <==> k in f.names && k !in fixed.Keys;
        assert k in Reads(q.expr) <==> k in bare && k !in fixed.Keys;
      }
    }
  }

  /** Two refinement results describe the same thing: both raise, both
      collapse to the same distribution, or both narrow to families with the
      same names that instantiate alike. */
  ghost predicate Equivalent(r1: Option<Refinement>, r2: Option<Refinement>) {
    match (r1, r2)
    case (None, None) => true
    case (Some(Collapsed(d1)), Some(Collapsed(d2))) => d1 == d2
    case (Some(Narrowed(a)), Some(Narrowed(b))) =>
      a.names == b.names && forall m :: Instantiate(a, m) == Instantiate(b, m)
    case _ => false
  }

  /** Refining with `first` and then with `second` is refining once with
      `first` updated by `second` (`{**first, **second}`); for disjoint key sets
      that is their union. */
  lemma RefineTwice(f: Family, first: map<string, real>, second: map<string, real>)
    requires Refine(f, first).Some? && Refine(f, first).value.Narrowed?
    ensures Equivalent(Refine(Refine(f, first).value.family, second), Refine(f, first + second))
  {
    var q := Refine(f, first).value.family;
    RemainingAfterTwo(f, q, first, second);
    var r1 := Refine(q, second);
    var r2 := Refine(f, first + second);
    if r1.Some? && r1.value.Narrowed? {
      NarrowedTwice(f, q, first, second, r1.value.family, r2.value.family);
    } else {
      assert Instantiate(q, second) == Instantiate(f, first + second);
    }
  }

  lemma RemainingAfterTwo(f: Family, q: Family, first: map<string, real>, second: map<string, real>)
    requires q.names == Without(f.names, first.Keys)
    ensures Without(q.names, second.Keys) == Without(f.names, (first + second).Keys)
  {
    WithoutTwice(f.names, first.Keys, second.Keys);
    assert (first + second).Keys == first.Keys + second.Keys;
  }

  lemma NarrowedTwice(f: Family, q: Family, first: map<string, real>, second: map<string, real>, a: Family, b: Family)
    requires forall m :: Instantiate(q, m) == Instantiate(f, first + m)
    requires forall m :: Instantiate(a, m) == Instantiate(q, second + m)
    requires forall m :: Instantiate(b, m) == Instantiate(f, (first + second) + m)
    ensures forall m :: Instantiate(a, m) == Instantiate(b, m)
  {
    forall m
      ensures Instantiate(a, m) == Instantiate(b, m)
    {
      assert Instantiate(q, second + m) == Instantiate(f, first + (second + m));
      assert first + (second + m) == (first + second) + m;
    }
  }

  /** Refining with every name of the family gives what `instantiate` gives
      with the same mapping. */
  lemma RefineAllIsInstantiate(f: Family, fixed: map<string, real>)
    requires forall k :: k in f.names ==> k in fixed
    ensures Refine(f, fixed) == Collapse(Instantiate(f, fixed))
  {
  }

  /** Position `i` is the last paired position holding its name: `zip` pairs
      no later name equal to it with a value. */
  predicate LastPaired(names: seq<string>, values: seq<real>, i: nat) {
    i < |names| && i < |values| &&
    forall j :: i < j < |names| && j < |values| ==> names[j] != names[i]
  }

  /** `dict(zip(names, values))`: pairs up to the shorter length; a repeated
      name keeps its last value. */
  function Zip(names: seq<string>, values: seq<real>): (m: map<string, real>)
    ensures forall k :: k in m <==> exists i :: 0 <= i < |names| && i < |values| && names[i] == k
    ensures forall i: nat :: LastPaired(names, values, i) ==> names[i] in m && m[names[i]] == values[i]
  {
    if |names| == 0 || |values| == 0 then
      map[]
    else
      var rest := Zip(names[1..], values[1..]);
      ZipKeys(names, values, rest);
      ZipValues(names, values, rest);
      map[names[0] := values[0]] + rest
  }

  lemma ZipKeys(names: seq<string>, values: seq<real>, rest: map<string, real>)
    requires |names| > 0 && |values| > 0
    requires forall k :: k in rest <==> exists i :: 0 <= i < |names[1..]| && i < |values[1..]| && names[1..][i] == k
    ensures forall k :: k in map[names[0] := values[0]] + rest <==>
      exists i :: 0 <= i < |names| && i < |values| && names[i] == k
  {
    forall k | k in rest
      ensures exists i :: 1 <= i < |names| && i < |values| && names[i] == k
    {
      var i :| 0 <= i < |names[1..]| && i < |values[1..]| && names[1..][i] == k;
      assert names[i + 1] == k;
    }
    forall k | exists i :: 1 <= i < |names| && i < |values| && names[i] == k
      ensures k in rest
    {
      var i :| 1 <= i < |names| && i < |values| && names[i] == k;
      assert names[1..][i - 1] == k;
    }
  }

  lemma ZipValues(names: seq<string>, values: seq<real>, rest: map<string, real>)
    requires |names| > 0 && |values| > 0
    requires forall k :: k in rest <==> exists i :: 0 <= i < |names[1..]| && i < |values[1..]| && names[1..][i] == k
    requires forall i: nat :: LastPaired(names[1..], values[1..], i) ==>
      names[1..][i] in rest && rest[names[1..][i]] == values[1..][i]
    ensures forall i: nat :: LastPaired(names, values, i) ==>
      var m := map[names[0] := values[0]] + rest;
      names[i] in m && m[names[i]] == values[i]
  {
    var m := map[names[0] := values[0]] + rest;
    forall i: nat | LastPaired(names, values, i)
      ensures names[i] in m && m[names[i]] == values[i]
    {
      if i == 0 {
        assert names[0] !in rest;
      } else {
        assert names[1..][i - 1] == names[i] && values[1..][i - 1] == values[i];
        assert LastPaired(names[1..], values[1..], i - 1) by {
          forall j | i - 1 < j < |names[1..]| && j < |values[1..]|
            ensures names[1..][j] != names[1..][i - 1]
          {
            assert names[1..][j] == names[j + 1];
          }
        }
      }
    }
  }

  /** The objective of `estimate` instantiates the family with
      `dict(zip(param_names, vector))`; for a well-formed family this succeeds
      exactly when the probe completes and the vector is at least as long as the
      names (`zip` drops the names past the vector's end). */
  lemma ObjectiveDefinedIff(f: Family, values: seq<real>)
    requires WellFormed(f)
    ensures Instantiate(f, Zip(f.names, values)).Some? <==> Completes(f.expr) && |values| >= |f.names|
  {
    SortedHasNoDuplicates(f.names);
    var m := Zip(f.names, values);
    InstantiateNeedsNames(f, m);
    if |values| < |f.names| {
      var k := f.names[|values|];
      assert k !in m;
    }
  }
}
