/** The scenarios of pacal/test/distr_family_test.py, stated about the model.
    `NormalDistr(mu, sigma)` is the symbolic `Base("NormalDistr", [mu, sigma])`. */
module Scenarios {
  import opened Options
  import opened Names
  import opened Distributions
  import opened Expressions
  import opened Families
  import opened AsWritten

  /** `lambda p: NormalDistr(0, p['sigma'])`. */
  const CenteredNormal: Expr := Prim("NormalDistr", [Num(0.0), Param("sigma")])

  /** `lambda p: NormalDistr(p['mu'], p['sigma'])`. */
  const Normal: Expr := Prim("NormalDistr", [Param("mu"), Param("sigma")])

  lemma CenteredNormalNames()
    ensures New(["sigma"], CenteredNormal, true).names == ["sigma"]
  {
    assert Reads(CenteredNormal) == ["sigma"];
  }

  lemma NormalNames(declared: seq<string>)
    ensures New(declared, Normal, true).names == ["mu", "sigma"]
  {
    assert Reads(Normal) == ["mu", "sigma"];
    assert Below("mu", "sigma");
    SortedUnique(New(declared, Normal, true).names, ["mu", "sigma"]);
  }

  /** Instantiating with `{'sigma': 2.0}` builds `NormalDistr(0, 2.0)`. */
  lemma BasicInstantiation()
    ensures Instantiate(New(["sigma"], CenteredNormal, true), map["sigma" := 2.0]) ==
      Some(Base("NormalDistr", [0.0, 2.0]))
  {
    var m := map["sigma" := 2.0];
    ArgsValues(CenteredNormal.args, Dict(m), [0.0, 2.0]);
  }

  /** A constructor whose arguments all evaluate against `m` instantiates to
      the distribution built from their values. */
  lemma PrimInstantiates(declared: seq<string>, kind: string, ts: seq<Term>, m: map<string, real>, vs: seq<real>)
    requires |ts| == |vs|
    requires forall i :: 0 <= i < |ts| ==> Value(ts[i], Dict(m)).result == Some(vs[i])
    ensures Instantiate(New(declared, Prim(kind, ts), true), m) == Some(Base(kind, vs))
  {
    ArgsValues(ts, Dict(m), vs);
  }

  /** `P1 + P2` over `a` and `b` instantiates to the sum of the two normals. */
  lemma OperatorAddition()
    ensures var p1 := New(["a"], Prim("NormalDistr", [Param("a"), Num(1.0)]), true);
      var p2 := New(["b"], Prim("NormalDistr", [Num(0.0), Param("b")]), true);
      Instantiate(Add(p1, Fam(p2)), map["a" := 1.0, "b" := 2.0]) ==
        Some(Sum(Base("NormalDistr", [1.0, 1.0]), Base("NormalDistr", [0.0, 2.0])))
  {
    var m := map["a" := 1.0, "b" := 2.0];
    var ts1 := [Param("a"), Num(1.0)];
    var ts2 := [Num(0.0), Param("b")];
    assert Value(ts1[0], Dict(m)).result == Some(1.0);
    assert Value(ts2[1], Dict(m)).result == Some(2.0);
    PrimInstantiates(["a"], "NormalDistr", ts1, m, [1.0, 1.0]);
    PrimInstantiates(["b"], "NormalDistr", ts2, m, [0.0, 2.0]);
    SumOfInstances(New(["a"], Prim("NormalDistr", ts1), true), New(["b"], Prim("NormalDistr", ts2), true), m,
      Base("NormalDistr", [1.0, 1.0]), Base("NormalDistr", [0.0, 2.0]));
  }

  /** Sums of instantiated families, one mapping at a time. */
  lemma SumOfInstances(f: Family, g: Family, m: map<string, real>, d1: Distr, d2: Distr)
    requires Instantiate(f, m) == Some(d1) && Instantiate(g, m) == Some(d2)
    ensures Instantiate(Add(f, Fam(g)), m) == Some(Sum(d1, d2))
  {
  }

  const MuFixed: map<string, real> := map["mu" := 1.0]

  /** `P.refine({'mu': 1.0})` for `P` over `mu` and `sigma`. */
  const SigmaLeft: Family := Family(["sigma"], Refined(MuFixed, Normal))

  lemma RefineMu()
    ensures Refine(New(["mu", "sigma"], Normal, true), MuFixed) == Some(Narrowed(SigmaLeft))
  {
    NormalNames(["mu", "sigma"]);
    assert MuFixed.Keys == {"mu"};
    assert Without(["mu", "sigma"], {"mu"}) == ["sigma"];
  }

  lemma CollapseSigma()
    ensures Refine(SigmaLeft, map["sigma" := 2.0]) == Some(Collapsed(Base("NormalDistr", [1.0, 2.0])))
  {
    var second := map["sigma" := 2.0];
    assert second.Keys == {"sigma"};
    assert Without(SigmaLeft.names, second.Keys) == [];
    var full := MuFixed + second;
    assert full["mu"] == 1.0 && full["sigma"] == 2.0;
    ArgsValues(Normal.args, Dict(full), [1.0, 2.0]);
    assert Instantiate(SigmaLeft, second) == Some(Base("NormalDistr", [1.0, 2.0]));
  }

  /** Refining with `{'mu': 1.0}` leaves a family over `sigma`; refining that
      with `{'sigma': 2.0}` collapses to `NormalDistr(1.0, 2.0)`. */
  lemma RefineAndCollapse()
    ensures var r := Refine(New(["mu", "sigma"], Normal, true), MuFixed);
      && r.Some? && r.value.Narrowed?
      && r.value.family.names == ["sigma"]
      && Refine(r.value.family, map["sigma" := 2.0]) == Some(Collapsed(Base("NormalDistr", [1.0, 2.0])))
  {
    RefineMu();
    CollapseSigma();
  }

  /** A declared name the expression never reads is dropped. */
  lemma ParamsUsedTrimming()
    ensures New(["mu", "sigma", "unused"], Normal, true).names == ["mu", "sigma"]
  {
    NormalNames(["mu", "sigma", "unused"]);
  }

  /** `trunc(-3.0, 3.0)` instantiates to the truncated normal with those bounds. */
  lemma TruncScenario()
    ensures var p := New(["sigma"], CenteredNormal, true);
      && Trunc(p, -3.0, 3.0).names == ["sigma"]
      && Instantiate(Trunc(p, -3.0, 3.0), map["sigma" := 2.0]) ==
           Some(Truncated(Base("NormalDistr", [0.0, 2.0]), -3.0, 3.0))
  {
    var p := New(["sigma"], CenteredNormal, true);
    CenteredNormalNames();
    BasicInstantiation();
    assert Instantiate(p, map["sigma" := 2.0]) == Some(Base("NormalDistr", [0.0, 2.0]));
  }

  /** `censor(-3.0, 3.0)` instantiates to the censored normal with those bounds. */
  lemma CensorScenario()
    ensures var p := New(["sigma"], CenteredNormal, true);
      && Censor(p, -3.0, 3.0).names == ["sigma"]
      && Instantiate(Censor(p, -3.0, 3.0), map["sigma" := 2.0]) ==
           Some(Censored(Base("NormalDistr", [0.0, 2.0]), -3.0, 3.0))
  {
    var p := New(["sigma"], CenteredNormal, true);
    CenteredNormalNames();
    BasicInstantiation();
    assert Instantiate(p, map["sigma" := 2.0]) == Some(Base("NormalDistr", [0.0, 2.0]));
  }

  /** An expression that raises after reading `a` still reports `a`; one that
      raises before reading anything reports no names; construction succeeds
      either way. */
  lemma ProbeFailureSwallowed()
    ensures New(["a", "b"], Combine(Plus, [Prim("NormalDistr", [Param("a")]), Raise]), true).names == ["a"]
    ensures New(["a"], Raise, true).names == []
  {
    var e := Combine(Plus, [Prim("NormalDistr", [Param("a")]), Raise]);
    assert Reads(e) == ["a"];
  }

  /** The tracking dictionary answers every key, so a name read but never
      declared is reported too. */
  lemma UndeclaredReadReported()
    ensures New(["a"], Prim("NormalDistr", [Param("b")]), true).names == ["b"]
  {
    assert Reads(Prim("NormalDistr", [Param("b")])) == ["b"];
  }

  /** Without detection the declared list is kept verbatim, repeats included. */
  lemma DeclaredKeptWithoutDetection()
    ensures New(["sigma", "unused", "sigma"], CenteredNormal, false).names == ["sigma", "unused", "sigma"]
  {
  }

  lemma SigmaLeftWellFormed()
    ensures WellFormed(SigmaLeft)
  {
    assert MuFixed + map[] == MuFixed;
    assert Reads(SigmaLeft.expr) == ["sigma"];
  }

  lemma TruncOfRefinedFails()
    ensures Instantiate(MergeAsWritten(TruncTo(-3.0, 3.0), [Fam(SigmaLeft)]), map[]) == None
  {
    var m := MuFixed + map[];
    assert "sigma" !in m;
    assert Value(Normal.args[1], Dict(m)).result.None?;
    assert Run(Normal, Dict(m)).result == None;
    assert Exprs(Lifted([Fam(SigmaLeft)])) == [SigmaLeft.expr];
  }

  /** `P.refine({'mu': 1.0}).trunc(-3.0, 3.0)`: as written the truncated family
      has no names, though it still needs `sigma`, so refining it with the
      empty mapping collapses at once and raises; with the intended detection
      its names are `['sigma']`. */
  lemma RefinedOperandLosesNames()
    ensures Refine(New(["mu", "sigma"], Normal, true), MuFixed) ==
      Some(Narrowed(SigmaLeft))
    ensures MergeAsWritten(TruncTo(-3.0, 3.0), [Fam(SigmaLeft)]).names == []
    ensures Refine(MergeAsWritten(TruncTo(-3.0, 3.0), [Fam(SigmaLeft)]), map[]) == None
    ensures Trunc(SigmaLeft, -3.0, 3.0).names == ["sigma"]
  {
    RefineMu();
    SigmaLeftWellFormed();
    UnaryOfRefinedHasNoNames(TruncTo(-3.0, 3.0), ["sigma"], MuFixed, Normal);
    TruncOfRefinedFails();
  }
}
