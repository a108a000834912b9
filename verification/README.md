# Distribution families in Dafny

This project models `DistrFamily` from pacal (`pacal/distr_family.py`). A
family is a list of parameter names plus an expression function that maps a
`name -> value` mapping to a distribution. The model covers these parts of it:

- construction, with usage detection: one probing call against a tracking
  dictionary, which records every key it is asked for;
- `instantiate`;
- `merge` and the operators built on it (`+`, `*`, `/`, `trunc`, `censor`);
- `refine`, which narrows the family or collapses it into a distribution;
- the `dict(zip(param_names, vector))` pairing used by `estimate`.

Expression functions are trees (`Expressions.Expr`), not closures. A tree is
one of: a literal distribution, a distribution constructor whose arguments
look up parameters, the combined expression built by `merge`, the wrapped
expression built by `refine`, or an expression that raises. Distributions are
symbolic terms (`Distributions.Distr`). A single evaluator, `Expressions.Run`,
runs a tree against one of three kinds of mapping:

- a plain dictionary, where a missing key raises `KeyError`;
- the tracking dictionary as the code builds it (`Probe`);
- the tracking dictionary seen through refinements (`ProbeThrough`).

`Run` returns the keys it recorded and the distribution, or `None` where the
code raises.

Files, one module each:

- `options.dfy`: `Option`, which stands in for the code's exceptions.
- `names.dfy`: Python's `str` ordering, `sorted(set(...))`, and the
  order-preserving filter that `refine` uses.
- `distributions.dfy`: symbolic distributions.
- `expressions.dfy`: expression trees, the evaluator, and the lemmas that
  relate probing to instantiation.
- `families.dfy`: the `DistrFamily` operations and their properties.
- `as_written.dfy`: the code as written, where it departs from its evident
  intent (see Findings).
- `scenarios.dfy`: the scenarios of `pacal/test/distr_family_test.py`, and a worked example of Findings row 3.

The model follows the code in these places:

- The tracking dictionary answers every key. A name that is read but never
  declared therefore ends up in `param_names`. The declared names do not
  filter the result (`Scenarios.UndeclaredReadReported`).
- Detection stops at the first failure. So the names of a merged family are
  the union of its operands' names only when every operand's probe runs to the
  end. Otherwise only the operands up to and including the failing one
  contribute (`Families.MergeNamesStopAtFailure`).
- `refine` builds `dict(fixed)` and updates it with the supplied mapping. On a
  shared key the supplied value wins (`fixed + m`).
- `/` multiplies (`Families.Div`; Findings, row 1).

In two places the main model (`Families`) uses the evidently intended
behaviour instead of the code as written. The as-written behaviour is
modelled separately in `AsWritten`, and the Findings table gives an input
that shows each difference:

- Usage detection sees through refinements. `Families.Detect` probes with the
  `ProbeThrough` environment, which also records reads inside a refined
  operand. The code's probe does not record those reads, because
  `dict.update` copies the tracking dictionary without calling
  `__getitem__` (lines 68-71). The code's detection is
  `AsWritten.DetectAsWritten`, and the merge that uses it is
  `AsWritten.MergeAsWritten`. The two agree for every expression without a
  refinement (`AsWritten.DetectAgreesWithoutRefinement`). Otherwise the
  as-written names are a subset of the intended ones
  (`AsWritten.AsWrittenLogWithin`).
- A non-family operand of `merge` is wrapped as a constant family
  (`Families.Lift`). In the code the late-bound `lambda _: i` yields the loop
  variable's final value (lines 52-55). That is modelled by
  `AsWritten.LoopEnd` and `AsWritten.WrapperYieldAsWritten`.

## Model

| member | source | states |
|---|---|---|
| Names.SortUnique | pacal/distr_family.py:29 | `sorted(set(used))` is strictly increasing in Python's string order and holds exactly the elements of `used` |
| Names.SortedUnique | pacal/distr_family.py:29 | two strictly sorted listings with the same elements are equal, so the detected list depends only on the set of names read |
| Names.Without | pacal/distr_family.py:66 | the remaining names are exactly the family's names that are not keys of `fixed`, and there are never more of them |
| Names.WithoutKeepsSorted | pacal/distr_family.py:66 | filtering keeps the original order: a sorted name list stays sorted |
| Names.WithoutTwice | pacal/distr_family.py:66 | filtering by one key set and then by another equals filtering once by their union |
| Names.BelowIsLexicographic | pacal/distr_family.py:29 | `Below`, the order `sorted` uses on names, is Python's `str` `<`: `a` comes first iff the two share a prefix after which `a` ends or has the smaller code point while `b` continues |
| Expressions.Dummy | pacal/distr_family.py:23 | the tracking dictionary's stored entries are exactly the declared names, each at the placeholder 1.0 |
| Expressions.Lookup | pacal/distr_family.py:19-21 | the tracking dictionary's `__getitem__` records every key, declared or not, and answers 1.0; a plain dictionary raises exactly on a missing key and records nothing; the seen-through probe answers refinement-fixed keys from their fixed values without recording them |
| Expressions.Enter | pacal/distr_family.py:69-70 | `dict(fixed)` updated by `params` holds the keys of both, and the value from `params` wins on a shared key; for the tracking dictionary the result is a plain dictionary over `fixed` and the declared names at 1.0, so later lookups are not recorded |
| Expressions.Run | pacal/distr_family.py:25 | running an expression function (here `self.expr_func(TrackingDict(dummy))`): the seen-through probe never records a key an enclosing refinement fixes |
| Expressions.Apply | pacal/distr_family.py:59-61 | the combiner produces a distribution exactly when it gets as many distributions as it takes; otherwise the call raises |
| Expressions.RunAll | pacal/distr_family.py:59-60 | operands are instantiated in order against the same mapping; the list exists iff every operand instantiates, and its i-th entry is operand i's distribution |
| Expressions.ThroughFilters | pacal/distr_family.py:68-71 | probing a refined expression records what probing the bare expression records, minus the fixed keys; whether it completes is unchanged |
| Expressions.DictDefinedIff | pacal/distr_family.py:68-71 | running against `fixed` updated by `m` succeeds iff the probe under `fixed` completes and `m` holds every key the probe records |
| Expressions.CompleteLogIsUnion | pacal/distr_family.py:59-61 | when every operand completes, the combined run records exactly the keys some operand records |
| Expressions.FailureKeepsEarlierReads | pacal/distr_family.py:24-29 | when operand j is the first to raise, the combined run raises and records exactly the keys of operands 0..j |
| Expressions.DictLogsNothing | pacal/distr_family.py:68-71 | a plain dictionary records no lookups, however deeply refinements nest |
| Families.Detect | pacal/distr_family.py:15-29 | intended detection: a sorted, duplicate-free list of exactly the names the probe reads, reads inside a refined operand included; a failure during the probe is swallowed. As written: AsWritten.DetectAsWritten |
| Families.New | pacal/distr_family.py:6-13 | with (intended) detection the names are sorted, duplicate-free and exactly the names read; without it the declared list is kept verbatim. As written: AsWritten.DetectAsWritten |
| Families.Instantiate | pacal/distr_family.py:31-32 | instantiation does no key check: it succeeds iff the probe completes and the mapping holds every key the expression reads |
| Families.InstantiateNeedsNames | pacal/distr_family.py:31-32 | for a detected family, instantiation succeeds iff the probe completes and the mapping holds all of the family's names |
| Families.Lift | pacal/distr_family.py:52-55 | intended wrapping: a non-family operand becomes a family with no names that instantiates to the operand under every mapping. As written: AsWritten.WrapperYieldAsWritten |
| Families.AllNames | pacal/distr_family.py:57 | the declared names of a merge are exactly the names of some operand |
| Families.InstantiateAll | pacal/distr_family.py:60 | `[i.instantiate(params) for i in new_args]` succeeds iff every operand does, with the results in operand order |
| Families.Merge | pacal/distr_family.py:49-63 | with intended detection and wrapping, a merged family is detected: sorted, duplicate-free names that are exactly the names its expression reads. As written: AsWritten.MergeAsWritten, AsWritten.WrapperYieldAsWritten |
| Families.MergeInstantiates | pacal/distr_family.py:59-61 | instantiating a merge instantiates every operand against the one mapping and applies the combiner to the results; it fails if any operand fails |
| Families.MergeNamesUnion | pacal/distr_family.py:57-63 | when every operand is detected and its probe completes, the merged names are the union of the operands' names |
| Families.MergeNamesStopAtFailure | pacal/distr_family.py:59-63 | when operand j is the first whose probe raises, the merged names are the names of operands 0..j |
| Families.Add | pacal/distr_family.py:34-35 | `F + G` instantiates to the sum of F's and G's instantiations against the same mapping; its names are the union of theirs (intended detection and wrapping; as written: AsWritten.MergeAsWritten, AsWritten.WrapperYieldAsWritten) |
| Families.Mul | pacal/distr_family.py:37-38 | `F * G` instantiates to the product of the two instantiations; its names are the union of theirs (intended detection and wrapping; as written: AsWritten.MergeAsWritten, AsWritten.WrapperYieldAsWritten) |
| Families.Div | pacal/distr_family.py:40-41 | `F / G` as written is the same family as `F * G` and instantiates to a product (intended detection and wrapping; as written: AsWritten.MergeAsWritten, AsWritten.WrapperYieldAsWritten) |
| Families.TrueDiv | pacal/distr_family.py:40-41 | intended division instantiates to the quotient of the two instantiations; its names are the union of theirs |
| Families.TrueDivDiffersFromDiv | pacal/distr_family.py:40-41 | whenever both operands instantiate, the quotient family and the as-written `/` family instantiate to different distributions |
| Families.Trunc | pacal/distr_family.py:43-44 | `trunc(a, b)` instantiates to the instantiation truncated to the bounds given at the call, and keeps a detected family's names (intended detection; as written: AsWritten.MergeAsWritten, AsWritten.UnaryOfRefinedHasNoNames) |
| Families.Censor | pacal/distr_family.py:46-47 | `censor(a, b)` instantiates to the instantiation censored to the bounds given at the call, and keeps a detected family's names (intended detection; as written: AsWritten.MergeAsWritten, AsWritten.UnaryOfRefinedHasNoNames) |
| Families.Refine | pacal/distr_family.py:65-76 | collapses iff every name is fixed, and then equals `instantiate(fixed)`; otherwise keeps the unfixed names in order and instantiates with `fixed` overridden by the supplied mapping |
| Families.RefinedKeepsWellFormed | pacal/distr_family.py:66-71 | narrowing a detected family gives a family whose names are again exactly the names its expression reads |
| Families.RefineTwice | pacal/distr_family.py:65-76 | refining with `first` and then `second` is equivalent to one refine with `first` updated by `second` (for disjoint keys, their union) |
| Families.RefineAllIsInstantiate | pacal/distr_family.py:73-74 | refining with a mapping that covers every name gives exactly what `instantiate` gives with that mapping |
| Families.Zip | pacal/distr_family.py:84 | `dict(zip(names, vector))` has exactly the names that have a partner in the vector, and a name maps to the partner of its last paired occurrence (repeats arise without detection) |
| Families.ObjectiveDefinedIff | pacal/distr_family.py:83-86 | for a detected family, the objective's instantiation succeeds iff the probe completes and the vector is at least as long as the names |
| AsWritten.DetectAsWritten | pacal/distr_family.py:15-29 | detection as written is sorted, duplicate-free and exactly the keys the tracking dictionary records |
| AsWritten.MergeAsWritten | pacal/distr_family.py:49-63 | `merge` with as-written detection (constants wrapped as intended): its names are sorted, always among the intended merge's names, and equal to them when no operand holds a refinement |
| AsWritten.AsWrittenLogWithin | pacal/distr_family.py:18-27 | the code's probe records only keys the intended probe records, and completes only where the intended probe completes |
| AsWritten.AsWrittenProbeSkipsRefinement | pacal/distr_family.py:68-71 | as written, nothing is recorded while probing a refined expression |
| AsWritten.ProbesAgreeWithoutRefinement | pacal/distr_family.py:18-25 | away from refinements the as-written and intended probes record the same keys and give the same result |
| AsWritten.DetectAgreesWithoutRefinement | pacal/distr_family.py:15-29 | for expressions without a refinement, as-written and intended detection give the same names |
| AsWritten.UnaryOfRefinedHasNoNames | pacal/distr_family.py:43-47 | as written, `trunc` or `censor` of a refined family is detected to have no names |
| AsWritten.LoopEnd | pacal/distr_family.py:52-55 | after the wrapping loop, `i` names the last entry of `new_args`: the last argument, or the wrapper built for it |
| AsWritten.WrapperYieldAsWritten | pacal/distr_family.py:52-55 | every late-bound `lambda _: i` returns the object of the loop's last iteration, whichever wrapper it is |
| AsWritten.WrappedConstantLost | pacal/distr_family.py:52-55 | as written, a wrapped non-family operand never yields its value: every wrapper yields a `DistrFamily` object |
| AsWritten.AddConstantExample | pacal/distr_family.py:52-55 | in `F + 2.0` the wrapper yields itself as written; intended, the sum is taken with the constant `2.0` |
| Scenarios.BasicInstantiation | pacal/test/distr_family_test.py:9-13 | instantiating `NormalDistr(0, p['sigma'])` with `{'sigma': 2.0}` builds `NormalDistr(0, 2.0)` |
| Scenarios.OperatorAddition | pacal/test/distr_family_test.py:15-21 | the sum of two families over `a` and `b` instantiates to the sum of the two normals |
| Scenarios.RefineAndCollapse | pacal/test/distr_family_test.py:23-31 | refining with `mu` leaves a family over `['sigma']`; refining that with `sigma` collapses to `NormalDistr(1.0, 2.0)` |
| Scenarios.ParamsUsedTrimming | pacal/test/distr_family_test.py:33-35 | the declared name `unused` is dropped, leaving `['mu', 'sigma']` |
| Scenarios.TruncScenario | pacal/test/distr_family_test.py:51-56 | `trunc(-3.0, 3.0)` keeps the names and instantiates to the truncated normal with bounds -3 and 3 |
| Scenarios.CensorScenario | pacal/test/distr_family_test.py:58-63 | `censor(-3.0, 3.0)` keeps the names and instantiates to the censored normal |
| Scenarios.ProbeFailureSwallowed | pacal/distr_family.py:24-29 | an expression that raises after reading `a` still reports `a`; one that raises at once reports none |
| Scenarios.UndeclaredReadReported | pacal/distr_family.py:18-21 | a name that is read but never declared is reported |
| Scenarios.DeclaredKeptWithoutDetection | pacal/distr_family.py:12-13 | with `delete_unused_params=False` the declared list is kept verbatim, repeats included |
| Scenarios.RefinedOperandLosesNames | pacal/distr_family.py:65-76 | `P.refine({'mu': 1.0}).trunc(-3.0, 3.0)` has no names as written, and its `refine({})` raises; with intended detection its names are `['sigma']` |

## Findings

| source | as written | input that shows it | evidently intended | confidence | as-written member | corrected member |
|---|---|---|---|---|---|---|
| pacal/distr_family.py:40-41 | `__truediv__` merges with `lambda x, y: x * y` | `(F / G).instantiate(p)` for any F and G that instantiate under `p`: it gives a product | the quotient `x / y` | high; not executed | `Families.Div` (equal to `Families.Mul`, instantiates to a product) | `Families.TrueDiv`, with `Families.TrueDivDiffersFromDiv` |
| pacal/distr_family.py:52-55 | `lambda _: i` reads the loop variable when it is called, after the loop, not when it is made | `(F + 2.0).instantiate(p)`: the wrapper for `2.0` returns the wrapper family itself, so `x + y` gets a `DistrFamily` | the wrapper returns `2.0` | high; not executed | `AsWritten.WrapperYieldAsWritten` with `AsWritten.LoopEnd`, shown by `AsWritten.WrappedConstantLost` and `AsWritten.AddConstantExample` | `Families.Lift`, used by `Families.Add` |
| pacal/distr_family.py:68-71 | `full_params.update(params)` copies the tracking dictionary's stored entries without calling its `__getitem__`, so lookups inside a refined operand are not recorded during detection | `DistrFamily(['mu', 'sigma'], lambda p: NormalDistr(p['mu'], p['sigma'])).refine({'mu': 1.0}).trunc(-3.0, 3.0).param_names` is `[]` | `['sigma']` | medium (relies on CPython's `dict.update` skipping `__getitem__` for dict subclasses); not executed | `AsWritten.MergeAsWritten`, shown by `Scenarios.RefinedOperandLosesNames` | `Families.Merge` with `Families.RefinedKeepsWellFormed` |

## Left out

- `estimate` (pacal/distr_family.py:78-90) calls `scipy.optimize.minimize`, a numerical black box. Only its name/vector pairing (`Families.Zip`) and the objective's instantiation (`Families.ObjectiveDefinedIff`) are modelled.
- `_default_neg_log_likelihood` (pacal/distr_family.py:92-95) is left out: it works on numpy arrays, `log` and the `1e-300` floating-point clamp.
- `__repr__` (pacal/distr_family.py:97-98) is left out: it only formats a string.
- Distributions are symbolic. `pdf`, `cdf`, `range` and sampling are not modelled, so the tests' checks on `range()`, `pdf` and `rand` are not restated. That includes the `range()` checks in the trunc and censor tests, and `test_estimate_normal_sigma`.
- Expression functions are limited to the tree's node kinds. The tree has no lambdas that branch on parameter values or do arithmetic on them. So `test_mix_DistrFamily`, whose `MixDistr` weights compute `1 - p['w']`, is not restated.
- Distribution constructors and the four combiners are modelled as total: for any argument values they build their term. A constructor or combiner that rejects a value is not modelled, whether during the probe or at instantiation. So the model's "succeeds iff" statements (`Families.Instantiate`, `Families.ObjectiveDefinedIff`) cover only missing keys and `Raise`. An expression that raises is modelled only by `Raise`, which raises under every mapping.
- `merge` is modelled with the four combiners the class itself passes: `x + y`; `x * y`, which `__truediv__` also passes; `x.trunc(a, b)`; and `x.censor(a, b)`. The model adds a fifth, `Over` (`x / y`), which only the corrected `Families.TrueDiv` uses. Arbitrary caller-supplied combining functions are not modelled.
- Families and refinements hold copies of their values. The code keeps references instead. `refine`'s expression reads the caller's `fixed_params` dict each time it is instantiated (pacal/distr_family.py:68-71). Without detection, `param_names` is the caller's own list (lines 7 and 13). So changes the caller makes to that dict or list after the call are seen by the code but not by the model: `Refined(fixed, …)` keeps the values `fixed` had at `refine` time.
- A non-family operand is modelled as a distribution term. A plain number is `Const(c)`.
- The family does not keep `_original_param_names`. Intended detection does not depend on it. The as-written detection takes the declared names as an argument.
- pacal/test/truncate_test.py and pacal/test/censor_test.py are not modelled. They test the distribution classes' numerics, not the family code.
