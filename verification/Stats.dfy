/**
 Sample statistics over exact reals: the one-pass mean and variance, R7 percentiles, and the checks a stored analysis
 must pass. Floating-point rounding is not modelled, so no value is NaN or infinite.
 */
module Stats {
  import opened Basics

  // ---------------------------------------------------------------- sorting and sums

  ghost predicate SortedBy<T>(xs: seq<T>, key: T -> real) {
    forall i, j :: 0 <= i <= j < |xs| ==> key(xs[i]) <= key(xs[j])
  }

  function Insert<T>(x: T, xs: seq<T>, key: T -> real): seq<T> {
    if xs == [] || key(x) >= key(xs[|xs| - 1]) then xs + [x]
    else Insert(x, xs[..|xs| - 1], key) + [xs[|xs| - 1]]
  }

  lemma {:induction false} InsertKeeps<T>(x: T, xs: seq<T>, key: T -> real)
    ensures multiset(Insert(x, xs, key)) == multiset(xs) + multiset{x}
  {
    if xs != [] && key(x) < key(xs[|xs| - 1]) {
      InsertKeeps(x, xs[..|xs| - 1], key);
      assert xs == xs[..|xs| - 1] + [xs[|xs| - 1]];
    }
  }

  /** Putting a greatest element last keeps the order. */
  lemma AppendSorted<T>(xs: seq<T>, last: T, key: T -> real)
    requires SortedBy(xs, key) && forall x :: x in multiset(xs) ==> key(x) <= key(last)
    ensures SortedBy(xs + [last], key)
  {
  }

  lemma {:induction false} InsertSorts<T>(x: T, xs: seq<T>, key: T -> real)
    requires SortedBy(xs, key)
    ensures SortedBy(Insert(x, xs, key), key)
  {
    if xs == [] || key(x) >= key(xs[|xs| - 1]) {
      forall y | y in multiset(xs) ensures key(y) <= key(x) { var i :| 0 <= i < |xs| && xs[i] == y; }
      AppendSorted(xs, x, key);
    } else {
      var init, last := xs[..|xs| - 1], xs[|xs| - 1];
      InsertSorts(x, init, key);
      InsertKeeps(x, init, key);
      forall y | y in multiset(Insert(x, init, key)) ensures key(y) <= key(last) {
        if y != x {
          assert y in multiset(init);
          var i :| 0 <= i < |init| && init[i] == y;
          assert key(xs[i]) <= key(xs[|xs| - 1]);
        }
      }
      AppendSorted(Insert(x, init, key), last, key);
    }
  }

  /** `slices.Clone` then `slices.Sort`. */
  function Sort<T>(xs: seq<T>, key: T -> real): seq<T> {
    if xs == [] then [] else Insert(xs[|xs| - 1], Sort(xs[..|xs| - 1], key), key)
  }

  lemma {:induction false} SortSorts<T>(xs: seq<T>, key: T -> real)
    ensures SortedBy(Sort(xs, key), key) && multiset(Sort(xs, key)) == multiset(xs) && |Sort(xs, key)| == |xs|
  {
    if xs != [] {
      var init, last := xs[..|xs| - 1], xs[|xs| - 1];
      SortSorts(init, key);
      InsertSorts(last, Sort(init, key), key);
      InsertKeeps(last, Sort(init, key), key);
      assert xs == init + [last];
    }
    assert |multiset(Sort(xs, key))| == |multiset(xs)|;
  }

  function Total(xs: seq<real>, f: real -> real): real {
    if xs == [] then 0.0 else Total(xs[..|xs| - 1], f) + f(xs[|xs| - 1])
  }

  lemma {:induction false} TotalWithout(xs: seq<real>, i: nat, f: real -> real)
    requires i < |xs|
    ensures Total(xs, f) == Total(xs[..i] + xs[i + 1..], f) + f(xs[i])
  {
    var n := |xs| - 1;
    if i == n {
      assert xs[..i] + xs[i + 1..] == xs[..n];
    } else {
      var rest := xs[..i] + xs[i + 1..];
      TotalWithout(xs[..n], i, f);
      assert rest[..n - 1] == xs[..n][..i] + xs[..n][i + 1..];
      assert rest[n - 1] == xs[n];
    }
  }

  lemma TakenOut<T>(xs: seq<T>, i: nat)
    requires i < |xs|
    ensures multiset(xs) == multiset(xs[..i] + xs[i + 1..]) + multiset{xs[i]}
  {
    var before, behind := xs[..i], xs[i + 1..];
    assert xs == before + ([xs[i]] + behind);
    assert multiset(before + ([xs[i]] + behind)) == multiset(before) + multiset([xs[i]] + behind);
    assert multiset([xs[i]] + behind) == multiset([xs[i]]) + multiset(behind);
  }

  /** The last element of `a` taken out of a permutation of `a`. */
  lemma RemoveLast<T>(a: seq<T>, b: seq<T>) returns (i: nat)
    requires a != [] && multiset(a) == multiset(b)
    ensures i < |b| && b[i] == a[|a| - 1]
    ensures multiset(a[..|a| - 1]) == multiset(b[..i] + b[i + 1..])
  {
    var n := |a| - 1;
    assert a[n] in multiset(a);
    i :| 0 <= i < |b| && b[i] == a[n];
    TakenOut(a, n);
    TakenOut(b, i);
    assert a[..n] + a[n + 1..] == a[..n];
    assert multiset(a[..n]) == multiset(a) - multiset{a[n]};
    assert multiset(b[..i] + b[i + 1..]) == multiset(b) - multiset{b[i]};
  }

  /** A total does not depend on the order of the samples. */
  lemma {:induction false} TotalOfPermutation(a: seq<real>, b: seq<real>, f: real -> real)
    requires multiset(a) == multiset(b)
    ensures Total(a, f) == Total(b, f)
    decreases |a|
  {
    if a == [] {
      assert |b| == |multiset(b)| == 0;
    } else {
      var init, last := a[..|a| - 1], a[|a| - 1];
      var i := RemoveLast(a, b);
      var rest := b[..i] + b[i + 1..];
      TotalOfPermutation(init, rest, f);
      TotalWithout(b, i, f);
    }
  }

  // ---------------------------------------------------------------- mean and variance

  function Id(x: real): real { x }

  function Square(x: real): real { x * x }

  function Sum(xs: seq<real>): real { Total(xs, Id) }

  /** The sum of squared deviations from `m`. */
  function Deviations(xs: seq<real>, m: real): real { Total(xs, x => (x - m) * (x - m)) }

  function Squares(xs: seq<real>): real { Total(xs, Square) }

  lemma {:induction false} DeviationsExpand(xs: seq<real>, m: real)
    ensures Deviations(xs, m) == Squares(xs) - 2.0 * m * Sum(xs) + |xs| as real * (m * m)
  {
    if xs != [] {
      var init, x := xs[..|xs| - 1], xs[|xs| - 1];
      DeviationsExpand(init, m);
      var k := |init| as real;
      assert |xs| as real == k + 1.0;
      assert (x - m) * (x - m) == x * x - 2.0 * m * x + m * m;
      assert 2.0 * m * (Sum(init) + x) == 2.0 * m * Sum(init) + 2.0 * m * x;
      assert (k + 1.0) * (m * m) == k * (m * m) + m * m;
    }
  }

  lemma {:induction false} DeviationsNonnegative(xs: seq<real>, m: real)
    ensures Deviations(xs, m) >= 0.0
  {
    if xs != [] {
      DeviationsNonnegative(xs[..|xs| - 1], m);
      var d := xs[|xs| - 1] - m;
      assert d * d >= 0.0;
    }
  }

  /** `mean` and `m2` are the mean and the sum of squared deviations of `xs`. */
  ghost predicate Moments(xs: seq<real>, mean: real, m2: real) {
    mean * |xs| as real == Sum(xs) && m2 == Deviations(xs, mean) && (xs == [] ==> mean == 0.0)
  }

  lemma SumsExtend(xs: seq<real>, x: real)
    ensures Sum(xs + [x]) == Sum(xs) + x && Squares(xs + [x]) == Squares(xs) + x * x
  {
  }

  /** The mean with one more sample. */
  lemma MeanStep(k: real, mean: real, x: real)
    requires k >= 0.0
    ensures (k + 1.0) * (mean + (x - mean) / (k + 1.0)) == k * mean + x
  {
  }

  /** The algebra of one step, from the mean of `k` samples with sum `s` and sum of squares `q` to the mean with `x`. */
  lemma NextMoments(k: real, mean: real, x: real, mean': real, s: real, q: real, m2: real, d: real)
    requires s == mean * k && (k + 1.0) * mean' == k * mean + x
    requires m2 == q - 2.0 * mean * s + k * (mean * mean)
    requires d == (q + x * x) - 2.0 * mean' * (s + x) + (k + 1.0) * (mean' * mean')
    ensures mean' * (k + 1.0) == s + x && d == m2 + (x - mean) * (x - mean')
  {
  }

  lemma MomentsExtend(xs: seq<real>, x: real, mean: real, m2: real)
    requires Moments(xs, mean, m2)
    ensures var delta := x - mean;
      var mean' := mean + delta / (|xs| as real + 1.0);
      Moments(xs + [x], mean', m2 + delta * (x - mean'))
  {
    hide Sum, Squares, Deviations;
    var k, xs' := |xs| as real, xs + [x];
    var mean' := mean + (x - mean) / (k + 1.0);
    SumsExtend(xs, x);
    DeviationsExpand(xs, mean);
    DeviationsExpand(xs', mean');
    MeanStep(k, mean, x);
    assert |xs'| as real == k + 1.0;
    NextMoments(k, mean, x, mean', Sum(xs), Squares(xs), m2, Deviations(xs', mean'));
  }

  lemma NoMoments()
    ensures Moments([], 0.0, 0.0)
  {
  }

  /** The one-pass loop. */
  method Welford(xs: seq<real>) returns (mean: real, m2: real)
    ensures Moments(xs, mean, m2)
  {
    hide Moments;
    mean, m2 := 0.0, 0.0;
    NoMoments();
    assert xs[..0] == [];
    for k := 0 to |xs|
      invariant Moments(xs[..k], mean, m2)
    {
      MomentsExtend(xs[..k], xs[k], mean, m2);
      assert xs[..k + 1] == xs[..k] + [xs[k]];
      var x, count := xs[k], (k + 1) as real;
      assert count == |xs[..k]| as real + 1.0;
      var delta := x - mean;
      mean := mean + delta / count;
      var delta2 := x - mean;
      m2 := m2 + delta * delta2;
    }
    assert xs[..|xs|] == xs;
  }

  /** The moments do not depend on the order of the samples. */
  lemma MomentsOfPermutation(a: seq<real>, b: seq<real>, mean: real, m2: real)
    requires Moments(a, mean, m2) && multiset(a) == multiset(b)
    ensures Moments(b, mean, m2)
  {
    assert Sum(a) == Sum(b) by { TotalOfPermutation(a, b, Id); }
    assert Deviations(a, mean) == Deviations(b, mean) by { TotalOfPermutation(a, b, x => (x - mean) * (x - mean)); }
    hide Sum, Deviations;
    assert |a| == |multiset(a)| == |multiset(b)| == |b|;
  }

  // ---------------------------------------------------------------- R7 percentiles

  ghost predicate Ascending(xs: seq<real>) { SortedBy(xs, Id) }

  /** The value at a real-valued rank: linear between neighbours. */
  function ValueAt(xs: seq<real>, r: real): real
    requires |xs| > 0 && 0.0 <= r <= (|xs| - 1) as real
  {
    var i := r.Floor;
    if i >= |xs| - 1 then xs[|xs| - 1]
    else xs[i] + (r - i as real) * (xs[i + 1] - xs[i])
  }

  lemma RankBounds(p: real, m: real)
    requires 0.0 <= p <= 1.0 && m >= 0.0
    ensures 0.0 <= p * m <= m
  {
  }

  function Rank(n: nat, p: real): (r: real)
    requires n > 0 && 0.0 <= p <= 1.0
    ensures 0.0 <= r <= (n - 1) as real
  {
    RankBounds(p, (n - 1) as real);
    p * (n - 1) as real
  }

  /** `linearInterpolationR7` */
  function R7(sorted: seq<real>, p: real): real {
    var n := |sorted|;
    if n == 0 then 0.0
    else if n == 1 || p <= 0.0 then sorted[0]
    else if p >= 1.0 then sorted[n - 1]
    else ValueAt(sorted, Rank(n, p))
  }

  function Clamp(p: real): (c: real)
    ensures 0.0 <= c <= 1.0
  {
    if p <= 0.0 then 0.0 else if p >= 1.0 then 1.0 else p
  }

  lemma R7IsValueAt(sorted: seq<real>, p: real)
    requires |sorted| > 0
    ensures R7(sorted, p) == ValueAt(sorted, Rank(|sorted|, Clamp(p)))
  {
    var n := |sorted|;
    var r := Rank(n, Clamp(p));
    if n == 1 || p <= 0.0 {
      assert r == 0.0;
    } else if p >= 1.0 {
      assert r == (n - 1) as real && r.Floor == n - 1;
    }
  }

  /** Between two neighbours, an interpolated value stays between them. */
  lemma Between(a: real, b: real, w: real)
    requires a <= b && 0.0 <= w <= 1.0
    ensures a <= a + w * (b - a) <= b
  {
  }

  lemma Product(a: real, b: real)
    requires a >= 0.0 && b >= 0.0
    ensures a * b >= 0.0
  {
  }

  lemma ValueBetween(xs: seq<real>, r: real)
    requires Ascending(xs) && |xs| > 0 && 0.0 <= r <= (|xs| - 1) as real
    ensures var i := r.Floor;
      && 0 <= i < |xs| && xs[i] <= ValueAt(xs, r) <= xs[|xs| - 1]
      && (i + 1 < |xs| ==> ValueAt(xs, r) <= xs[i + 1])
  {
    var i := r.Floor;
    if i < |xs| - 1 {
      assert Id(xs[i]) <= Id(xs[i + 1]) && Id(xs[i + 1]) <= Id(xs[|xs| - 1]);
      Between(xs[i], xs[i + 1], r - i as real);
    }
  }

  lemma ValueAtMonotone(xs: seq<real>, r: real, s: real)
    requires Ascending(xs) && |xs| > 0 && 0.0 <= r <= s <= (|xs| - 1) as real
    ensures ValueAt(xs, r) <= ValueAt(xs, s)
  {
    ValueBetween(xs, r);
    ValueBetween(xs, s);
    var i, j := r.Floor, s.Floor;
    if i < j {
      assert Id(xs[i + 1]) <= Id(xs[j]);
    } else if i < |xs| - 1 {
      var d := xs[i + 1] - xs[i];
      assert Id(xs[i]) <= Id(xs[i + 1]);
      Product(s - r, d);
      assert (s - i as real) * d == (r - i as real) * d + (s - r) * d;
    }
  }

  lemma RankMonotone(n: nat, p: real, q: real)
    requires n > 0 && 0.0 <= p <= q <= 1.0
    ensures Rank(n, p) <= Rank(n, q)
  {
    var m := (n - 1) as real;
    Product(q - p, m);
    assert (q - p) * m == q * m - p * m;
  }

  /** Percentiles never decrease with p, and lie between the least and the greatest sample. */
  lemma R7MonotoneAndBounded(sorted: seq<real>, p: real, q: real)
    requires Ascending(sorted) && |sorted| > 0
    ensures p <= q ==> R7(sorted, p) <= R7(sorted, q)
    ensures sorted[0] <= R7(sorted, p) <= sorted[|sorted| - 1]
  {
    var n := |sorted|;
    R7IsValueAt(sorted, p);
    R7IsValueAt(sorted, q);
    if p <= q {
      RankMonotone(n, Clamp(p), Clamp(q));
      ValueAtMonotone(sorted, Rank(n, Clamp(p)), Rank(n, Clamp(q)));
    }
    ValueBetween(sorted, Rank(n, Clamp(p)));
    assert Id(sorted[0]) <= Id(sorted[Rank(n, Clamp(p)).Floor]);
  }

  /** `Quantile`: a convex combination on a private sorted copy. */
  function Quantile(values: seq<real>, quantile: real): real {
    if values == [] then 0.0
    else
      var ordered := Sort(values, Id);
      SortSorts(values, Id);
      var q := Rank(|ordered|, Clamp(quantile));
      var index := q.Floor;
      if index == |ordered| - 1 then ordered[index]
      else
        var weight := q - index as real;
        (1.0 - weight) * ordered[index] + weight * ordered[index + 1]
  }

  lemma Convex(a: real, b: real, w: real)
    ensures (1.0 - w) * a + w * b == a + w * (b - a)
  {
  }

  /** The two percentile routines agree on every input. */
  lemma QuantileIsR7(values: seq<real>, p: real)
    ensures Quantile(values, p) == R7(Sort(values, Id), p)
  {
    hide Sort;
    SortSorts(values, Id);
    if values != [] {
      var xs := Sort(values, Id);
      R7IsValueAt(xs, p);
      var q := Rank(|xs|, Clamp(p));
      var i := q.Floor;
      if i < |xs| - 1 {
        Convex(xs[i], xs[i + 1], q - i as real);
      }
    }
  }

  /** So a bootstrap interval never has its ends in the wrong order, and both lie within the resampled values. */
  lemma QuantileMonotoneAndBounded(values: seq<real>, p: real, q: real)
    requires values != [] && p <= q
    ensures Quantile(values, p) <= Quantile(values, q)
    ensures exists lo, hi :: lo in values && hi in values && lo <= Quantile(values, p) && Quantile(values, q) <= hi
  {
    hide Quantile, R7, Sort;
    var xs := Sort(values, Id);
    SortSorts(values, Id);
    QuantileIsR7(values, p);
    QuantileIsR7(values, q);
    R7MonotoneAndBounded(xs, p, q);
    R7MonotoneAndBounded(xs, q, q);
    assert xs[0] in multiset(xs) && xs[|xs| - 1] in multiset(xs);
    assert xs[0] in values && xs[|xs| - 1] in values;
  }

  // ---------------------------------------------------------------- the analysis of a scenario

  datatype StatsError = EmptySamples | NonpositiveDuration | NegativeOperations | NegativeSample

  const ALGORITHM: string := "v1"
  const METHOD: string := "linear_interpolation_r7"

  datatype Analysis = Analysis(
    algorithm: string, percentileMethod: string, count: nat, minNs: int, maxNs: int, meanNs: real, stdDevNs: real,
    percentiles: map<string, real>, throughput: real)

  /** `validateAnalysis` */
  predicate Passes(a: Analysis, hasRaw: bool, totalSamples: int) {
    && a.algorithm == "v1" && a.percentileMethod == "linear_interpolation_r7"
    && a.count > 0 && (hasRaw ==> a.count == totalSamples)
    && 0 <= a.minNs <= a.maxNs && a.meanNs >= 0.0 && a.stdDevNs >= 0.0 && a.throughput >= 0.0
    && a.percentiles != map[]
    && forall k :: k in a.percentiles ==> a.minNs as real - 1.0 <= a.percentiles[k] <= a.maxNs as real + 1.0
  }

  function AsReal(x: int): real { x as real }

  function AsReals(xs: seq<int>): (r: seq<real>)
    ensures |r| == |xs|
  {
    seq(|xs|, i requires 0 <= i < |xs| => AsReal(xs[i]))
  }

  /** Each named percentile is the R7 value of the sorted samples. */
  function Percentiles(sorted: seq<real>): map<string, real> {
    map["p50" := R7(sorted, 0.50), "p75" := R7(sorted, 0.75), "p90" := R7(sorted, 0.90),
        "p95" := R7(sorted, 0.95), "p99" := R7(sorted, 0.99), "p99.9" := R7(sorted, 0.999)]
  }

  /**
   The sample at `num / den` of the way from the first to the last, in whole numbers: the position's whole part, and its
   remainder as the share of the step to the next sample.
   */
  function AtFraction(xs: seq<real>, num: nat, den: nat): real
    requires |xs| > 0 && num < den
  {
    var i, rest := num * (|xs| - 1) / den, num * (|xs| - 1) % den;
    if i + 1 < |xs| then xs[i] + rest as real / den as real * (xs[i + 1] - xs[i]) else xs[|xs| - 1]
  }

  lemma WholeAndRest(a: nat, den: nat, r: real)
    requires den > 0 && r * den as real == a as real
    ensures r.Floor == a / den && (r - (a / den) as real) * den as real == (a % den) as real
  {
    var i, rest := a / den, a % den;
    assert a == i * den + rest;
    assert a as real == i as real * den as real + rest as real;
    var d := r - i as real;
    assert d * den as real == rest as real;
    assert 0.0 <= d < 1.0;
  }

  /** R7 at a fraction is the sample at that fraction of the way. */
  lemma R7AtFraction(xs: seq<real>, num: nat, den: nat, p: real)
    requires |xs| > 0 && num < den && p * den as real == num as real
    ensures R7(xs, p) == AtFraction(xs, num, den)
  {
    var n := |xs|;
    var m := n - 1;
    assert 0.0 <= p < 1.0;
    R7IsValueAt(xs, p);
    var r := Rank(n, p);
    assert r * den as real == (num * m) as real by {
      assert r * den as real == p * den as real * m as real;
    }
    WholeAndRest(num * m, den, r);
    var i, rest := num * m / den, num * m % den;
    assert (r - i as real) * den as real == rest as real;
    assert r - i as real == rest as real / den as real;
  }

  /** The six percentiles of nonempty samples, each at its own fraction. */
  predicate NamedPercentiles(named: map<string, real>, xs: seq<real>)
    requires |xs| > 0
  {
    && named.Keys == {"p50", "p75", "p90", "p95", "p99", "p99.9"}
    && named["p50"] == AtFraction(xs, 1, 2) && named["p75"] == AtFraction(xs, 3, 4)
    && named["p90"] == AtFraction(xs, 9, 10) && named["p95"] == AtFraction(xs, 19, 20)
    && named["p99"] == AtFraction(xs, 99, 100) && named["p99.9"] == AtFraction(xs, 999, 1000)
  }

  lemma PercentilesExact(xs: seq<real>)
    requires |xs| > 0
    ensures NamedPercentiles(Percentiles(xs), xs)
  {
    R7AtFraction(xs, 1, 2, 0.50);
    R7AtFraction(xs, 3, 4, 0.75);
    R7AtFraction(xs, 9, 10, 0.90);
    R7AtFraction(xs, 19, 20, 0.95);
    R7AtFraction(xs, 99, 100, 0.99);
    R7AtFraction(xs, 999, 1000, 0.999);
    hide R7, AtFraction;
  }

  /** A larger percentile of the same samples is never smaller. */
  lemma PercentilesAscend(xs: seq<real>)
    requires Ascending(xs) && |xs| > 0
    ensures var named := Percentiles(xs);
      named["p50"] <= named["p75"] <= named["p90"] <= named["p95"] <= named["p99"] <= named["p99.9"]
  {
    hide R7;
    R7MonotoneAndBounded(xs, 0.50, 0.75);
    R7MonotoneAndBounded(xs, 0.75, 0.90);
    R7MonotoneAndBounded(xs, 0.90, 0.95);
    R7MonotoneAndBounded(xs, 0.95, 0.99);
    R7MonotoneAndBounded(xs, 0.99, 0.999);
  }

  /** A square root on the nonnegative reals. */
  ghost predicate IsSqrt(sqrt: real -> real) {
    forall x :: x >= 0.0 ==> sqrt(x) >= 0.0 && sqrt(x) * sqrt(x) == x
  }

  predicate Nonnegative(xs: seq<int>) { forall i :: 0 <= i < |xs| ==> xs[i] >= 0 }

  method CheckSamples(samples: seq<int>) returns (ok: bool)
    ensures ok <==> Nonnegative(samples)
  {
    for i := 0 to |samples|
      invariant Nonnegative(samples[..i])
    {
      if samples[i] < 0 { return false; }
    }
    assert samples[..|samples|] == samples;
    return true;
  }

  /** What the result says about the samples, in whatever order they came. */
  ghost predicate Summarizes(a: Analysis, samples: seq<int>) {
    && a.count == |samples| > 0
    && a.minNs in samples && a.maxNs in samples
    && (forall x :: x in samples ==> a.minNs <= x <= a.maxNs)
    && a.meanNs * a.count as real == Sum(AsReals(samples))
    && a.stdDevNs * a.stdDevNs * a.count as real == Deviations(AsReals(samples), a.meanNs)
    && |Sort(samples, AsReal)| > 0 && NamedPercentiles(a.percentiles, AsReals(Sort(samples, AsReal)))
    && a.percentiles["p50"] <= a.percentiles["p75"] <= a.percentiles["p90"] <= a.percentiles["p95"]
                            <= a.percentiles["p99"] <= a.percentiles["p99.9"]
  }

  function Throughput(ops: int, duration: int): (t: real)
    requires ops >= 0 && duration > 0
    ensures t >= 0.0 && t * duration as real == ops as real * 1000000000.0
  {
    if ops > 0 then (ops as real * 1000000000.0) / duration as real else 0.0
  }

  lemma SortedEnds(samples: seq<int>, sorted: seq<int>)
    requires samples != [] && |sorted| == |samples| && multiset(sorted) == multiset(samples) && SortedBy(sorted, AsReal)
    ensures sorted[0] in samples && sorted[|sorted| - 1] in samples
    ensures forall x :: x in samples ==> sorted[0] <= x <= sorted[|sorted| - 1]
  {
    assert sorted[0] in multiset(sorted) && sorted[|sorted| - 1] in multiset(sorted);
    forall x | x in samples ensures sorted[0] <= x <= sorted[|sorted| - 1] {
      assert x in multiset(samples);
      var i :| 0 <= i < |sorted| && sorted[i] == x;
      assert AsReal(sorted[0]) <= AsReal(sorted[i]) <= AsReal(sorted[|sorted| - 1]);
    }
  }

  lemma {:induction false} AsRealsPermutes(a: seq<int>, b: seq<int>)
    requires multiset(a) == multiset(b)
    ensures multiset(AsReals(a)) == multiset(AsReals(b))
    decreases |a|
  {
    if a == [] {
      assert |b| == |multiset(b)| == 0;
    } else {
      var init, last := a[..|a| - 1], a[|a| - 1];
      var i := RemoveLast(a, b);
      var rest := b[..i] + b[i + 1..];
      AsRealsPermutes(init, rest);
      assert AsReals(a) == AsReals(init) + [last as real];
      assert b == b[..i] + [last] + b[i + 1..];
      assert AsReals(b) == AsReals(b[..i]) + [last as real] + AsReals(b[i + 1..]);
      assert AsReals(rest) == AsReals(b[..i]) + AsReals(b[i + 1..]);
    }
  }

  lemma {:induction false} SumNonnegative(xs: seq<int>)
    requires Nonnegative(xs)
    ensures Sum(AsReals(xs)) >= 0.0
  {
    if xs != [] {
      SumNonnegative(xs[..|xs| - 1]);
      assert AsReals(xs)[..|xs| - 1] == AsReals(xs[..|xs| - 1]);
    }
  }

  lemma NonnegativeFactor(a: real, n: real)
    requires n > 0.0
    ensures a * n >= 0.0 ==> a >= 0.0
  {
  }

  /** The moments of the sorted samples are those of the samples, and both are nonnegative. */
  lemma SpreadOf(samples: seq<int>, sorted: seq<int>, mean: real, m2: real)
    requires samples != [] && Nonnegative(samples) && multiset(sorted) == multiset(samples)
    requires Moments(AsReals(sorted), mean, m2)
    ensures |sorted| == |samples|
    ensures mean * |samples| as real == Sum(AsReals(samples)) && mean >= 0.0
    ensures m2 == Deviations(AsReals(samples), mean) && m2 >= 0.0 && m2 / |samples| as real >= 0.0
  {
    assert |sorted| == |multiset(sorted)| == |multiset(samples)| == |samples|;
    AsRealsPermutes(sorted, samples);
    MomentsOfPermutation(AsReals(sorted), AsReals(samples), mean, m2);
    SumNonnegative(samples);
    DeviationsNonnegative(AsReals(samples), mean);
    hide Sum, Deviations;
    NonnegativeFactor(mean, |samples| as real);
  }

  lemma PercentilesBounded(sorted: seq<int>)
    requires sorted != [] && SortedBy(sorted, AsReal)
    ensures Percentiles(AsReals(sorted)) != map[]
    ensures NamedPercentiles(Percentiles(AsReals(sorted)), AsReals(sorted))
    ensures var named := Percentiles(AsReals(sorted));
      named["p50"] <= named["p75"] <= named["p90"] <= named["p95"] <= named["p99"] <= named["p99.9"]
    ensures forall k :: k in Percentiles(AsReals(sorted)) ==>
      sorted[0] as real <= Percentiles(AsReals(sorted))[k] <= sorted[|sorted| - 1] as real
  {
    hide R7;
    var xs := AsReals(sorted);
    assert Ascending(xs);
    forall p: real ensures xs[0] <= R7(xs, p) <= xs[|xs| - 1] { R7MonotoneAndBounded(xs, p, p); }
    assert "p50" in Percentiles(xs);
    PercentilesExact(xs);
    PercentilesAscend(xs);
    hide AtFraction;
  }

  /** `ComputeAnalysis` */
  method ComputeAnalysis(samples: seq<int>, totalOps: int, totalDurationNs: int, sqrt: real -> real)
    returns (r: Result<Analysis, StatsError>)
    requires IsSqrt(sqrt)
    ensures samples == [] ==> r == Err(EmptySamples)
    ensures samples != [] && totalDurationNs <= 0 ==> r == Err(NonpositiveDuration)
    ensures samples != [] && totalDurationNs > 0 && totalOps < 0 ==> r == Err(NegativeOperations)
    ensures samples != [] && totalDurationNs > 0 && totalOps >= 0 && !Nonnegative(samples) ==> r == Err(NegativeSample)
    ensures r.Ok? <==> samples != [] && totalDurationNs > 0 && totalOps >= 0 && Nonnegative(samples)
    ensures r.Ok? ==> Summarizes(r.value, samples) && Passes(r.value, true, |samples|)
    ensures r.Ok? ==> r.value.throughput * totalDurationNs as real == totalOps as real * 1000000000.0
  {
    hide Percentiles, AtFraction, Sort, R7, Sum, Deviations, Moments, SortedBy;
    if samples == [] { return Err(EmptySamples); }
    if totalDurationNs <= 0 { return Err(NonpositiveDuration); }
    if totalOps < 0 { return Err(NegativeOperations); }
    var ok := CheckSamples(samples);
    if !ok { return Err(NegativeSample); }
    var sorted := Sort(samples, AsReal);
    SortSorts(samples, AsReal);
    SortedEnds(samples, sorted);
    var mean, m2 := Welford(AsReals(sorted));
    SpreadOf(samples, sorted, mean, m2);
    var stdDev := sqrt(m2 / |sorted| as real);
    var percentiles := Percentiles(AsReals(sorted));
    PercentilesBounded(sorted);
    var throughput := Throughput(totalOps, totalDurationNs);
    return Ok(Analysis(ALGORITHM, METHOD, |sorted|, sorted[0], sorted[|sorted| - 1], mean, stdDev, percentiles,
                       throughput));
  }
}
