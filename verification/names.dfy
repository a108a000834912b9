/** Parameter-name lists: Python's ordering of `str` values, the
    `sorted(set(...))` listing produced by usage detection, and the
    order-preserving filter `[p for p in names if p not in keys]` used by
    refinement. */
module Names {

  /** `a` and `b` agree on their first `i` characters, and there `a` either
      ends or has the smaller code point while `b` goes on. */
  predicate DivergesAt(a: string, b: string, i: nat) {
    i <= |a| && i < |b| && a[..i] == b[..i] && (i == |a| || a[i] < b[i])
  }

  /** Python's `<` on `str`: lexicographic by code point, a proper prefix
      coming first. */
  predicate Below(a: string, b: string)
    decreases |a|
  {
    |b| > 0 && (|a| == 0 || a[0] < b[0] || (a[0] == b[0] && Below(a[1..], b[1..])))
  }

  /** `Below` is the lexicographic order: `a` comes first exactly when the two
      share a prefix after which `a` ends or has the smaller code point. */
  lemma {:induction false} BelowIsLexicographic(a: string, b: string)
    ensures Below(a, b) <==> exists i: nat :: DivergesAt(a, b, i)
    decreases |a|
  {
    if |b| > 0 {
      if |a| == 0 || a[0] < b[0] {
        assert DivergesAt(a, b, 0);
      } else if a[0] == b[0] {
        BelowIsLexicographic(a[1..], b[1..]);
        DivergesShift(a, b);
      } else {
        assert forall i: nat :: DivergesAt(a, b, i) ==> i > 0 && a[..i][0] == b[..i][0];
      }
    }
  }

  /** Past a shared first character, divergence moves one position along. */
  lemma DivergesShift(a: string, b: string)
    requires |a| > 0 && |b| > 0 && a[0] == b[0]
    ensures (exists i: nat :: DivergesAt(a, b, i)) <==> exists i: nat :: DivergesAt(a[1..], b[1..], i)
  {
    if i: nat :| DivergesAt(a, b, i) {
      assert i > 0;
      assert a[1..][..i - 1] == a[..i][1..] && b[1..][..i - 1] == b[..i][1..];
      assert DivergesAt(a[1..], b[1..], i - 1);
    }
    if i: nat :| DivergesAt(a[1..], b[1..], i) {
      assert a[..i + 1] == [a[0]] + a[1..][..i] && b[..i + 1] == [b[0]] + b[1..][..i];
      assert DivergesAt(a, b, i + 1);
    }
  }

  lemma {:induction false} BelowIrreflexive(a: string)
    ensures !Below(a, a)
    decreases |a|
  {
    if |a| > 0 {
      BelowIrreflexive(a[1..]);
    }
  }

  lemma {:induction false} BelowTransitive(a: string, b: string, c: string)
    requires Below(a, b) && Below(b, c)
    ensures Below(a, c)
    decreases |a|
  {
    if |a| > 0 && a[0] == b[0] && b[0] == c[0] {
      BelowTransitive(a[1..], b[1..], c[1..]);
    }
  }

  lemma BelowAsymmetric(a: string, b: string)
    ensures Below(a, b) ==> !Below(b, a)
  {
    if Below(a, b) && Below(b, a) {
      BelowTransitive(a, b, a);
      BelowIrreflexive(a);
    }
  }

  lemma {:induction false} BelowTotal(a: string, b: string)
    ensures a == b || Below(a, b) || Below(b, a)
    decreases |a|
  {
    if |a| > 0 && |b| > 0 && a[0] == b[0] {
      BelowTotal(a[1..], b[1..]);
      if a[1..] == b[1..] {
        assert a == [a[0]] + a[1..];
        assert b == [b[0]] + b[1..];
      }
    }
  }

  /** Strictly increasing under `Below`: sorted and free of duplicates. */
  predicate StrictlySorted(s: seq<string>) {
    forall i, j :: 0 <= i < j < |s| ==> Below(s[i], s[j])
  }

  predicate NoDuplicates(s: seq<string>) {
    forall i, j :: 0 <= i < j < |s| ==> s[i] != s[j]
  }

  lemma SortedHasNoDuplicates(s: seq<string>)
    requires StrictlySorted(s)
    ensures NoDuplicates(s)
  {
    forall i, j | 0 <= i < j < |s|
      ensures s[i] != s[j]
    {
      BelowIrreflexive(s[i]);
    }
  }

  lemma SortedTail(s: seq<string>)
    requires StrictlySorted(s) && |s| > 0
    ensures StrictlySorted(s[1..])
    ensures forall k :: k in s[1..] ==> Below(s[0], k)
  {
    forall k | k in s[1..]
      ensures Below(s[0], k)
    {
      var j :| 0 <= j < |s[1..]| && s[1..][j] == k;
      assert s[j + 1] == k;
    }
  }

  lemma ConsSorted(h: string, t: seq<string>)
    requires StrictlySorted(t)
    requires forall k :: k in t ==> Below(h, k)
    ensures StrictlySorted([h] + t)
  {
    var s := [h] + t;
    forall i, j | 0 <= i < j < |s|
      ensures Below(s[i], s[j])
    {
      if i == 0 {
        assert s[j] == t[j - 1];
      } else {
        assert s[i] == t[i - 1] && s[j] == t[j - 1];
      }
    }
  }

  /** Inserts `x` into a strictly sorted listing, keeping it strictly sorted. */
  function Insert(x: string, s: seq<string>): (r: seq<string>)
    requires StrictlySorted(s)
    ensures StrictlySorted(r)
    ensures forall k :: k in r <==> k == x || k in s
  {
    if |s| == 0 then
      [x]
    else if x == s[0] then
      s
    else
      SortedTail(s);
      BelowTotal(x, s[0]);
      if Below(x, s[0]) then
        assert forall k :: k in s ==> k == s[0] || k in s[1..];
        forall k | k in s[1..] ensures Below(x, k) {
          BelowTransitive(x, s[0], k);
        }
        assert s == [s[0]] + s[1..];
        ConsSorted(x, s);
        [x] + s
      else
        var rest := Insert(x, s[1..]);
        ConsSorted(s[0], rest);
        assert forall k :: k in s <==> k == s[0] || k in s[1..] by {
          assert s == [s[0]] + s[1..];
        }
        [s[0]] + rest
  }

  /** `sorted(set(xs))`: the distinct elements of `xs` in increasing order. */
  function SortUnique(xs: seq<string>): (r: seq<string>)
    ensures StrictlySorted(r)
    ensures forall k :: k in r <==> k in xs
  {
    if |xs| == 0 then
      []
    else
      assert xs == [xs[0]] + xs[1..];
      Insert(xs[0], SortUnique(xs[1..]))
  }

  /** A strictly sorted listing is determined by its elements. */
  lemma {:induction false} SortedUnique(a: seq<string>, b: seq<string>)
    requires StrictlySorted(a) && StrictlySorted(b)
    requires forall k :: k in a <==> k in b
    ensures a == b
    decreases |a|
  {
    assert |a| > 0 ==> a[0] in b;
    assert |b| > 0 ==> b[0] in a;
    if |a| > 0 {
      SortedTail(a);
      SortedTail(b);
      assert a == [a[0]] + a[1..];
      assert b == [b[0]] + b[1..];
      BelowAsymmetric(a[0], b[0]);
      assert a[0] == b[0] by {
        assert a[0] in b && b[0] in a;
      }
      BelowIrreflexive(a[0]);
      forall k
        ensures k in a[1..] <==> k in b[1..]
      {
        assert k in a[1..] <==> k in a && k != a[0];
        assert k in b[1..] <==> k in b && k != b[0];
      }
      SortedUnique(a[1..], b[1..]);
    }
  }

  /** `[x for x in xs if x not in ks]`: the filter keeps order and repeats. */
  function Without(xs: seq<string>, ks: set<string>): (r: seq<string>)
    ensures forall k :: k in r <==> k in xs && k !in ks
    ensures |r| <= |xs|
  {
    if |xs| == 0 then
      []
    else
      assert xs == [xs[0]] + xs[1..];
      (if xs[0] in ks then [] else [xs[0]]) + Without(xs[1..], ks)
  }

  lemma {:induction false} WithoutTwice(xs: seq<string>, a: set<string>, b: set<string>)
    ensures Without(Without(xs, a), b) == Without(xs, a + b)
  {
    if |xs| > 0 {
      WithoutTwice(xs[1..], a, b);
      WithoutAppend(if xs[0] in a then [] else [xs[0]], Without(xs[1..], a), b);
    }
  }

  lemma WithoutCons(x: string, xs: seq<string>, ks: set<string>)
    ensures Without([x] + xs, ks) == (if x in ks then [] else [x]) + Without(xs, ks)
  {
    assert ([x] + xs)[0] == x && ([x] + xs)[1..] == xs;
  }

  lemma AppendAssociative(a: seq<string>, b: seq<string>, c: seq<string>)
    ensures a + (b + c) == (a + b) + c
  {
  }

  lemma {:induction false} WithoutAppend(xs: seq<string>, ys: seq<string>, ks: set<string>)
    ensures Without(xs + ys, ks) == Without(xs, ks) + Without(ys, ks)
    decreases |xs|
  {
    if |xs| == 0 {
      assert xs + ys == ys;
    } else {
      var x, rest := xs[0], xs[1..];
      var h := if x in ks then [] else [x];
      assert xs == [x] + rest;
      AppendAssociative([x], rest, ys);
      calc {
        Without(xs + ys, ks);
        { WithoutCons(x, rest + ys, ks); }
        h + Without(rest + ys, ks);
        { WithoutAppend(rest, ys, ks); }
        h + (Without(rest, ks) + Without(ys, ks));
        { AppendAssociative(h, Without(rest, ks), Without(ys, ks)); }
        (h + Without(rest, ks)) + Without(ys, ks);
        { WithoutCons(x, rest, ks); }
        Without(xs, ks) + Without(ys, ks);
      }
    }
  }

  lemma {:induction false} WithoutKeepsSorted(xs: seq<string>, ks: set<string>)
    requires StrictlySorted(xs)
    ensures StrictlySorted(Without(xs, ks))
  {
    if |xs| > 0 {
      SortedTail(xs);
      WithoutKeepsSorted(xs[1..], ks);
      if xs[0] !in ks {
        ConsSorted(xs[0], Without(xs[1..], ks));
      }
    }
  }
}
