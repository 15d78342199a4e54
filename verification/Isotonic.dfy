/**
 Isotonic regression by pooling adjacent violators
 (tools/derive_native_tiers.py:88-107), over the reals.

 The loop is the source's: it merges a falling pair into its weighted mean and
 steps back one position.  It is proved to return the non-decreasing sequence
 closest to its input in squared error, and the only one that close.
 */
module Isotonic {

  datatype Pool = Pool(mean: real, weight: nat)

  // --------------------------------------------------------------- reference

  predicate NonDecreasing(s: seq<real>) {
    forall i, j :: 0 <= i <= j < |s| ==> s[i] <= s[j]
  }

  function Times(x: real, y: real): real {
    x * y
  }

  function Sum(s: seq<real>): real {
    if s == [] then 0.0 else Sum(s[..|s| - 1]) + s[|s| - 1]
  }

  /** The squared distance between two sequences. */
  function SquaredError(a: seq<real>, b: seq<real>): real
    requires |a| == |b|
  {
    if a == [] then 0.0
    else
      var d := a[|a| - 1] - b[|b| - 1];
      SquaredError(a[..|a| - 1], b[..|b| - 1]) + Times(d, d)
  }

  /** `fit` is the best non-decreasing approximation of `values`: every other
      candidate is worse by at least its own distance from `fit`. */
  ghost predicate IsBestFit(values: seq<real>, fit: seq<real>) {
    && |fit| == |values|
    && NonDecreasing(fit)
    && forall g: seq<real> :: |g| == |values| && NonDecreasing(g) ==>
         SquaredError(values, g) >= SquaredError(values, fit) + SquaredError(fit, g)
  }

  lemma SquareIsPositive(d: real)
    ensures d == 0.0 || Times(d, d) > 0.0
    ensures d == 0.0 ==> Times(d, d) == 0.0
  {
    if d > 0.0 {
      ProductIsPositive(d, d);
    } else if d < 0.0 {
      ProductIsPositive(-d, -d);
      OppositesCancel(d, d);
    } else {
      assert Times(0.0, 0.0) == 0.0;
    }
  }

  lemma ProductIsPositive(x: real, y: real)
    requires x > 0.0 && y > 0.0
    ensures Times(x, y) > 0.0
  {
  }

  lemma ZeroProduct(x: real)
    ensures Times(x, 0.0) == 0.0 == Times(0.0, x)
  {
  }

  lemma OppositesCancel(x: real, y: real)
    ensures Times(-x, -y) == Times(x, y)
  {
  }

  lemma {:induction false} ErrorIsPositive(a: seq<real>, b: seq<real>)
    requires |a| == |b|
    ensures a == b ==> SquaredError(a, b) == 0.0
    ensures a != b ==> SquaredError(a, b) > 0.0
  {
    if a != [] {
      ErrorIsPositive(a[..|a| - 1], b[..|b| - 1]);
      SquareIsPositive(a[|a| - 1] - b[|b| - 1]);
      assert a == a[..|a| - 1] + [a[|a| - 1]] && b == b[..|b| - 1] + [b[|b| - 1]];
    }
  }

  /** There is only one best fit, and it leaves a monotone input alone. */
  lemma BestFitIsUnique(values: seq<real>, f: seq<real>, g: seq<real>)
    requires IsBestFit(values, f) && IsBestFit(values, g)
    ensures f == g
    ensures NonDecreasing(values) ==> f == values
  {
    ErrorIsPositive(f, g);
    ErrorIsPositive(g, f);
    if NonDecreasing(values) {
      ErrorIsPositive(values, values);
      ErrorIsPositive(values, f);
      ErrorIsPositive(f, values);
    }
  }

  // ------------------------------------------------------------------- pools

  /** The summed deviation of `xs` from `v`. */
  function Deviation(xs: seq<real>, v: real): real {
    if xs == [] then 0.0 else Deviation(xs[..|xs| - 1], v) + (xs[|xs| - 1] - v)
  }

  /** `v` is the mean of `xs`, and no beginning of `xs` has a smaller mean. */
  ghost predicate IsPool(xs: seq<real>, v: real) {
    && Deviation(xs, v) == 0.0
    && forall n :: 0 <= n <= |xs| ==> Deviation(xs[..n], v) >= 0.0
  }

  lemma OneMore(n: nat, x: real)
    ensures Times((n + 1) as real, x) == Times(n as real, x) + x
  {
  }

  lemma {:induction false} DeviationShift(xs: seq<real>, u: real, v: real)
    ensures Deviation(xs, v) == Deviation(xs, u) + Times(|xs| as real, u - v)
  {
    if xs != [] {
      DeviationShift(xs[..|xs| - 1], u, v);
      OneMore(|xs| - 1, u - v);
    } else {
      assert Times(0.0, u - v) == 0.0;
    }
  }

  lemma {:induction false} DeviationAppend(a: seq<real>, b: seq<real>, v: real)
    ensures Deviation(a + b, v) == Deviation(a, v) + Deviation(b, v)
  {
    if b == [] {
      assert a + b == a;
    } else {
      assert (a + b)[..|a + b| - 1] == a + b[..|b| - 1];
      DeviationAppend(a, b[..|b| - 1], v);
    }
  }

  function Mean(a: Pool, b: Pool): real
    requires a.weight + b.weight > 0
  {
    (Times(a.mean, a.weight as real) + Times(b.mean, b.weight as real)) / (a.weight + b.weight) as real
  }

  lemma MeanBalances(x: real, y: real, p: real, q: real, m: real)
    requires p + q != 0.0 && m == (Times(x, p) + Times(y, q)) / (p + q)
    ensures Times(p, x - m) + Times(q, y - m) == 0.0
  {
    assert m * (p + q) == x * p + y * q;
  }

  lemma BalanceIsBetween(p: real, q: real, above: real, below: real)
    requires p > 0.0 && q > 0.0 && above > below
    requires Times(p, above) + Times(q, below) == 0.0
    ensures below < 0.0 < above
  {
    if below > 0.0 {
      ProductIsPositive(p, above);
      ProductIsPositive(q, below);
    } else if below == 0.0 {
      ProductIsPositive(p, above);
      ZeroProduct(q);
    } else if above < 0.0 {
      ProductIsPositive(p, -above);
      ProductIsPositive(q, -below);
      OppositesCancel(-p, above);
      OppositesCancel(-q, below);
    } else if above == 0.0 {
      ZeroProduct(p);
      ProductIsPositive(q, -below);
      OppositesCancel(-q, below);
    }
  }

  lemma MeanIsBetween(a: Pool, b: Pool)
    requires a.weight > 0 && b.weight > 0 && a.mean > b.mean
    ensures b.mean < Mean(a, b) < a.mean
    ensures Times(a.weight as real, a.mean - Mean(a, b)) + Times(b.weight as real, b.mean - Mean(a, b)) == 0.0
  {
    MeanBalances(a.mean, b.mean, a.weight as real, b.weight as real, Mean(a, b));
    BalanceIsBetween(a.weight as real, b.weight as real, a.mean - Mean(a, b), b.mean - Mean(a, b));
  }

  lemma ScaleUp(n: nat, m: nat, x: real)
    requires n <= m && x <= 0.0
    ensures Times(n as real, x) >= Times(m as real, x)
  {
    assert (m - n) as real * x <= 0.0;
  }

  /** Lowering the reference value can only raise the deviations. */
  lemma BeginningOfFirst(xs: seq<real>, u: real, v: real, n: nat)
    requires n <= |xs| && v <= u && Deviation(xs[..n], u) >= 0.0
    ensures Deviation(xs[..n], v) >= 0.0
  {
    DeviationShift(xs[..n], u, v);
    assert Times(n as real, u - v) >= 0.0;
  }

  /** Raising it costs a beginning of the second pool no more than the whole. */
  lemma BeginningOfSecond(ys: seq<real>, u: real, v: real, m: nat)
    requires m <= |ys| && u <= v && Deviation(ys[..m], u) >= 0.0
    ensures Deviation(ys[..m], v) >= Times(|ys| as real, u - v)
  {
    DeviationShift(ys[..m], u, v);
    ScaleUp(m, |ys|, u - v);
  }

  /** The whole of a merged pair deviates from its mean by nothing. */
  lemma MergedWhole(xs: seq<real>, ys: seq<real>, a: Pool, b: Pool)
    requires Deviation(xs, a.mean) == 0.0 == Deviation(ys, b.mean)
    requires |xs| == a.weight > 0 && |ys| == b.weight > 0 && a.mean > b.mean
    ensures Deviation(xs, Mean(a, b)) + Deviation(ys, Mean(a, b)) == 0.0
    ensures Deviation(xs, Mean(a, b)) == -Times(b.weight as real, b.mean - Mean(a, b))
  {
    MeanIsBetween(a, b);
    DeviationShift(xs, a.mean, Mean(a, b));
    DeviationShift(ys, b.mean, Mean(a, b));
  }

  /** No beginning of a merged pair has a smaller mean. */
  lemma MergedBeginning(xs: seq<real>, ys: seq<real>, a: Pool, b: Pool, n: nat)
    requires IsPool(xs, a.mean) && IsPool(ys, b.mean) && n <= |xs + ys|
    requires |xs| == a.weight > 0 && |ys| == b.weight > 0 && a.mean > b.mean
    ensures Deviation((xs + ys)[..n], Mean(a, b)) >= 0.0
  {
    var v := Mean(a, b);
    MeanIsBetween(a, b);
    if n <= |xs| {
      assert (xs + ys)[..n] == xs[..n];
      BeginningOfFirst(xs, a.mean, v, n);
    } else {
      var m := n - |xs|;
      assert (xs + ys)[..n] == xs + ys[..m];
      DeviationAppend(xs, ys[..m], v);
      BeginningOfSecond(ys, b.mean, v, m);
      MergedWhole(xs, ys, a, b);
    }
  }

  /** Merging a falling pair of pools gives a pool. */
  lemma MergedPool(xs: seq<real>, ys: seq<real>, a: Pool, b: Pool)
    requires IsPool(xs, a.mean) && IsPool(ys, b.mean)
    requires |xs| == a.weight > 0 && |ys| == b.weight > 0 && a.mean > b.mean
    ensures IsPool(xs + ys, Mean(a, b))
  {
    DeviationAppend(xs, ys, Mean(a, b));
    MergedWhole(xs, ys, a, b);
    forall n | 0 <= n <= |xs + ys|
      ensures Deviation((xs + ys)[..n], Mean(a, b)) >= 0.0
    {
      MergedBeginning(xs, ys, a, b, n);
    }
  }

  // ------------------------------------------------------------- the pooling

  function Flatten(parts: seq<seq<real>>): seq<real> {
    if parts == [] then [] else Flatten(parts[..|parts| - 1]) + parts[|parts| - 1]
  }

  lemma {:induction false} FlattenAppend(a: seq<seq<real>>, b: seq<seq<real>>)
    ensures Flatten(a + b) == Flatten(a) + Flatten(b)
  {
    if b == [] {
      assert a + b == a;
    } else {
      assert (a + b)[..|a + b| - 1] == a + b[..|b| - 1];
      FlattenAppend(a, b[..|b| - 1]);
    }
  }

  function Merge(parts: seq<seq<real>>, i: nat): seq<seq<real>>
    requires i + 1 < |parts|
  {
    parts[..i] + [parts[i] + parts[i + 1]] + parts[i + 2..]
  }

  lemma FlattenOne(part: seq<real>)
    ensures Flatten([part]) == part
  {
    assert [part][..0] == [];
  }

  lemma FlattenTwo(a: seq<real>, b: seq<real>)
    ensures Flatten([a, b]) == a + b
  {
    FlattenOne(a);
    assert [a, b][..1] == [a];
  }

  lemma FlattenMiddle(before: seq<seq<real>>, middle: seq<seq<real>>, after: seq<seq<real>>)
    ensures Flatten(before + middle + after) == Flatten(before) + Flatten(middle) + Flatten(after)
  {
    FlattenAppend(before + middle, after);
    FlattenAppend(before, middle);
  }

  lemma AroundPair<T>(s: seq<T>, i: nat)
    requires i + 1 < |s|
    ensures s == s[..i] + [s[i], s[i + 1]] + s[i + 2..]
  {
  }

  lemma MergeKeepsContents(parts: seq<seq<real>>, i: nat)
    requires i + 1 < |parts|
    ensures Flatten(Merge(parts, i)) == Flatten(parts)
  {
    PairOrJoined(parts[..i], parts[i], parts[i + 1], parts[i + 2..]);
    AroundPair(parts, i);
  }

  lemma PairOrJoined(before: seq<seq<real>>, a: seq<real>, b: seq<real>, after: seq<seq<real>>)
    ensures Flatten(before + [a, b] + after) == Flatten(before + [a + b] + after)
  {
    FlattenMiddle(before, [a, b], after);
    FlattenMiddle(before, [a + b], after);
    FlattenTwo(a, b);
    FlattenOne(a + b);
  }

  /** `out` describes `parts` pool by pool. */
  ghost predicate Describes(out: seq<Pool>, parts: seq<seq<real>>) {
    && |out| == |parts|
    && forall k :: 0 <= k < |out| ==> |parts[k]| == out[k].weight > 0 && IsPool(parts[k], out[k].mean)
  }

  ghost predicate Ascending(out: seq<Pool>, n: nat)
    requires n <= |out|
  {
    forall k :: 0 < k < n ==> out[k - 1].mean <= out[k].mean
  }

  lemma {:induction false} SingletonParts(values: seq<real>, n: nat)
    requires n <= |values|
    ensures Flatten(seq(n, k requires 0 <= k < n => [values[k]])) == values[..n]
  {
    var parts := seq(n, k requires 0 <= k < n => [values[k]]);
    if n > 0 {
      SingletonParts(values, n - 1);
      assert parts[..n - 1] == seq(n - 1, k requires 0 <= k < n - 1 => [values[k]]);
    }
  }

  function Repeat(v: real, w: nat): seq<real> {
    seq(w, _ => v)
  }

  function Expand(out: seq<Pool>): seq<real> {
    if out == [] then [] else Expand(out[..|out| - 1]) + Repeat(out[|out| - 1].mean, out[|out| - 1].weight)
  }

  function MergePools(out: seq<Pool>, i: nat): seq<Pool>
    requires i + 1 < |out| && out[i].weight > 0
  {
    out[..i] + [Pool(Mean(out[i], out[i + 1]), out[i].weight + out[i + 1].weight)] + out[i + 2..]
  }

  lemma MergeStep(out: seq<Pool>, parts: seq<seq<real>>, i: nat)
    requires Describes(out, parts) && i + 1 < |out| && out[i].mean > out[i + 1].mean
    ensures Describes(MergePools(out, i), Merge(parts, i))
    ensures Flatten(Merge(parts, i)) == Flatten(parts)
  {
    MergedPool(parts[i], parts[i + 1], out[i], out[i + 1]);
    MergeKeepsContents(parts, i);
    var out', parts' := MergePools(out, i), Merge(parts, i);
    forall k | 0 <= k < |out'|
      ensures |parts'[k]| == out'[k].weight > 0 && IsPool(parts'[k], out'[k].mean)
    {
      var j := if k <= i then k else k + 1;
      assert k != i ==> out'[k] == out[j] && parts'[k] == parts[j];
    }
  }

  lemma OnePoolEach(values: seq<real>)
    ensures var out := seq(|values|, k requires 0 <= k < |values| => Pool(values[k], 1));
            var parts := seq(|values|, k requires 0 <= k < |values| => [values[k]]);
            Describes(out, parts) && Flatten(parts) == values
  {
    SingletonParts(values, |values|);
    assert values[..|values|] == values;
    forall k | 0 <= k < |values|
      ensures IsPool([values[k]], values[k])
    {
      SingletonPool(values[k]);
    }
  }

  /** One merge: the pools left of the merged pair still ascend. */
  lemma MergeKeepsAscent(out: seq<Pool>, i: nat)
    requires i + 1 < |out| && out[i].weight > 0 && Ascending(out, i + 1)
    ensures Ascending(MergePools(out, i), if i > 0 then i else 1)
  {
    var out' := MergePools(out, i);
    assert forall k :: 0 <= k < i ==> out'[k] == out[k];
  }

  method Pooled(values: seq<real>) returns (out: seq<Pool>, ghost parts: seq<seq<real>>)
    ensures Describes(out, parts) && Flatten(parts) == values
    ensures Ascending(out, |out|)
  {
    out := seq(|values|, k requires 0 <= k < |values| => Pool(values[k], 1));
    parts := seq(|values|, k requires 0 <= k < |values| => [values[k]]);
    OnePoolEach(values);
    var i := 0;
    while i < |out| - 1
      invariant 0 <= i && (|out| > 0 ==> i < |out|) && (|out| == 0 ==> i == 0)
      invariant Describes(out, parts) && Flatten(parts) == values
      invariant Ascending(out, if |out| == 0 then 0 else i + 1)
      decreases 2 * |out| - i
    {
      if out[i].mean <= out[i + 1].mean {
        i := i + 1;
      } else {
        MergeStep(out, parts, i);
        MergeKeepsAscent(out, i);
        parts := Merge(parts, i);
        out := MergePools(out, i);
        i := if i > 0 then i - 1 else 0;
      }
    }
  }

  method ComputeIsotonic(values: seq<real>) returns (flat: seq<real>)
    ensures IsBestFit(values, flat)
    ensures Sum(flat) == Sum(values)
    ensures NonDecreasing(values) ==> flat == values
  {
    ghost var parts;
    var out;
    out, parts := Pooled(values);
    PoolsAreBestFit(out, parts);
    flat := [];
    for k := 0 to |out|
      invariant flat == Expand(out[..k])
    {
      assert out[..k + 1][..k] == out[..k];
      flat := flat + Repeat(out[k].mean, out[k].weight);
    }
    assert out[..|out|] == out;
    BestFitIsUnique(values, flat, flat);
  }

  lemma SingletonPool(x: real)
    ensures IsPool([x], x)
  {
    assert [x][..0] == [] && [x][..1] == [x];
  }

  // -------------------------------------------------------------- optimality

  /** The inner product of the residuals with a step away from the fit. */
  function Cross(x: seq<real>, f: seq<real>, g: seq<real>): real
    requires |x| == |f| == |g|
  {
    if x == [] then 0.0
    else
      var n := |x| - 1;
      Cross(x[..n], f[..n], g[..n]) + Times(x[n] - f[n], g[n] - f[n])
  }

  lemma {:induction false} Pythagoras(x: seq<real>, f: seq<real>, g: seq<real>)
    requires |x| == |f| == |g|
    ensures SquaredError(x, g) == SquaredError(x, f) + SquaredError(f, g) - Cross(x, f, g) - Cross(x, f, g)
  {
    if x != [] {
      var n := |x| - 1;
      Pythagoras(x[..n], f[..n], g[..n]);
      SquareStep(x[n], f[n], g[n]);
    }
  }

  lemma SquareStep(x: real, f: real, g: real)
    ensures Times(x - g, x - g) == Times(x - f, x - f) + Times(f - g, f - g) - Times(x - f, g - f) - Times(x - f, g - f)
  {
  }

  /** Within one pool no rising step gains anything (summation by parts). */
  lemma {:induction false} PoolGainsNothing(xs: seq<real>, v: real, g: seq<real>, n: nat)
    requires 0 < n <= |xs| == |g| && NonDecreasing(g)
    requires forall k :: 0 <= k <= |xs| ==> Deviation(xs[..k], v) >= 0.0
    ensures Cross(xs[..n], Repeat(v, n), g[..n]) <= Times(Deviation(xs[..n], v), g[n - 1] - v)
  {
    var m := n - 1;
    CrossStep(xs, v, g, m);
    assert xs[..n][..m] == xs[..m];
    var before, x, rise := Deviation(xs[..m], v), xs[m] - v, g[m] - v;
    assert Deviation(xs[..n], v) == before + x;
    if m > 0 {
      PoolGainsNothing(xs, v, g, m);
      SummationStep(before, x, g[m - 1] - v, rise);
    }
  }

  lemma CrossStep(xs: seq<real>, v: real, g: seq<real>, m: nat)
    requires m < |xs| == |g|
    ensures Cross(xs[..m + 1], Repeat(v, m + 1), g[..m + 1]) == Cross(xs[..m], Repeat(v, m), g[..m]) + Times(xs[m] - v, g[m] - v)
  {
    assert xs[..m + 1][..m] == xs[..m] && Repeat(v, m + 1)[..m] == Repeat(v, m) && g[..m + 1][..m] == g[..m];
  }

  lemma SummationStep(p: real, x: real, g0: real, g1: real)
    requires p >= 0.0 && g0 <= g1
    ensures Times(p, g0) + Times(x, g1) <= Times(p + x, g1)
  {
    assert p * (g1 - g0) >= 0.0;
  }

  lemma {:induction false} CrossAppend(x1: seq<real>, x2: seq<real>, f1: seq<real>, f2: seq<real>, g1: seq<real>, g2: seq<real>)
    requires |x1| == |f1| == |g1| && |x2| == |f2| == |g2|
    ensures Cross(x1 + x2, f1 + f2, g1 + g2) == Cross(x1, f1, g1) + Cross(x2, f2, g2)
  {
    if x2 == [] {
      assert x1 + x2 == x1 && f1 + f2 == f1 && g1 + g2 == g1;
    } else {
      var n := |x2| - 1;
      CrossAppend(x1, x2[..n], f1, f2[..n], g1, g2[..n]);
      assert (x1 + x2)[..|x1| + n] == x1 + x2[..n];
      assert (f1 + f2)[..|f1| + n] == f1 + f2[..n];
      assert (g1 + g2)[..|g1| + n] == g1 + g2[..n];
    }
  }

  lemma {:induction false} ExpandLength(out: seq<Pool>, parts: seq<seq<real>>)
    requires Describes(out, parts)
    ensures |Expand(out)| == |Flatten(parts)|
  {
    if out != [] {
      ExpandLength(out[..|out| - 1], parts[..|parts| - 1]);
    }
  }

  lemma LastPoolGainsNothing(xs: seq<real>, v: real, g: seq<real>)
    requires IsPool(xs, v) && 0 < |xs| == |g| && NonDecreasing(g)
    ensures Cross(xs, Repeat(v, |xs|), g) <= 0.0
  {
    PoolGainsNothing(xs, v, g, |xs|);
    assert xs[..|xs|] == xs && g[..|xs|] == g;
    assert Times(0.0, g[|xs| - 1] - v) == 0.0;
  }

  lemma {:induction false} PoolsGainNothing(out: seq<Pool>, parts: seq<seq<real>>, g: seq<real>)
    requires Describes(out, parts) && |Expand(out)| == |Flatten(parts)| == |g| && NonDecreasing(g)
    ensures Cross(Flatten(parts), Expand(out), g) <= 0.0
  {
    if out != [] {
      var k := |out| - 1;
      var cut := |g| - |parts[k]|;
      ExpandLength(out[..k], parts[..k]);
      PoolsGainNothing(out[..k], parts[..k], g[..cut]);
      LastPoolGainsNothing(parts[k], out[k].mean, g[cut..]);
      assert g == g[..cut] + g[cut..];
      CrossAppend(Flatten(parts[..k]), parts[k], Expand(out[..k]), Repeat(out[k].mean, out[k].weight), g[..cut], g[cut..]);
    }
  }

  lemma {:induction false} ExpandAscends(out: seq<Pool>)
    requires Ascending(out, |out|)
    ensures NonDecreasing(Expand(out))
    ensures forall k :: 0 <= k < |Expand(out)| ==> out != [] && Expand(out)[k] <= out[|out| - 1].mean
  {
    if out != [] {
      var shorter := out[..|out| - 1];
      ExpandAscends(shorter);
    }
  }

  lemma {:induction false} SumAppend(a: seq<real>, b: seq<real>)
    ensures Sum(a + b) == Sum(a) + Sum(b)
  {
    if b == [] {
      assert a + b == a;
    } else {
      assert (a + b)[..|a + b| - 1] == a + b[..|b| - 1];
      SumAppend(a, b[..|b| - 1]);
    }
  }

  lemma {:induction false} PoolSum(xs: seq<real>, v: real)
    ensures Sum(xs) == Deviation(xs, v) + Sum(Repeat(v, |xs|))
  {
    if xs != [] {
      PoolSum(xs[..|xs| - 1], v);
      assert Repeat(v, |xs|)[..|xs| - 1] == Repeat(v, |xs| - 1);
    }
  }

  lemma {:induction false} PoolsKeepSum(out: seq<Pool>, parts: seq<seq<real>>)
    requires Describes(out, parts)
    ensures Sum(Expand(out)) == Sum(Flatten(parts))
  {
    if out != [] {
      var k := |out| - 1;
      PoolsKeepSum(out[..k], parts[..k]);
      SumAppend(Expand(out[..k]), Repeat(out[k].mean, out[k].weight));
      SumAppend(Flatten(parts[..k]), parts[k]);
      PoolSum(parts[k], out[k].mean);
    }
  }

  /** Ascending pools spell out the best fit of the values they pool. */
  lemma PoolsAreBestFit(out: seq<Pool>, parts: seq<seq<real>>)
    requires Describes(out, parts) && Ascending(out, |out|)
    ensures IsBestFit(Flatten(parts), Expand(out))
    ensures Sum(Expand(out)) == Sum(Flatten(parts))
  {
    var x, f := Flatten(parts), Expand(out);
    ExpandLength(out, parts);
    ExpandAscends(out);
    PoolsKeepSum(out, parts);
    forall g: seq<real> | |g| == |x| && NonDecreasing(g)
      ensures SquaredError(x, g) >= SquaredError(x, f) + SquaredError(f, g)
    {
      PoolsGainNothing(out, parts, g);
      Pythagoras(x, f, g);
    }
  }
}
