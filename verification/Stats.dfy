// Percentiles and the confidence interval over exact reals
// (benchmarks/stats.py, benchmarks/bench_writes.py).
module Stats {
  import opened Types

  ghost predicate Ascending(s: seq<real>) {
    forall i, j :: 0 <= i <= j < |s| ==> s[i] <= s[j]
  }

  /** Linear interpolation between the two samples around position `x`. */
  function Interpolate(s: seq<real>, x: real): real
    requires s != [] && 0.0 <= x <= (|s| - 1) as real
  {
    var lo := x.Floor;
    var hi := if lo + 1 < |s| - 1 then lo + 1 else |s| - 1;
    var frac := x - lo as real;
    s[lo] * (1.0 - frac) + s[hi] * frac
  }

  function Position(n: nat, p: real): (x: real)
    requires n >= 1 && 0.0 <= p <= 100.0
    ensures 0.0 <= x <= (n - 1) as real
  {
    PositionBounds(n, p);
    p / 100.0 * (n - 1) as real
  }

  function Percentile(s: seq<real>, p: real): real
    requires s != [] && 0.0 <= p <= 100.0
  {
    Interpolate(s, Position(|s|, p))
  }

  lemma MulMono(a: real, b: real, c: real)
    requires a <= b && 0.0 <= c
    ensures a * c <= b * c
  {
  }

  lemma PositionBounds(n: nat, p: real)
    requires n >= 1 && 0.0 <= p <= 100.0
    ensures 0.0 <= p / 100.0 * (n - 1) as real <= (n - 1) as real
  {
    MulMono(0.0, p, (n - 1) as real);
    MulMono(p, 100.0, (n - 1) as real);
  }

  lemma PositionMono(n: nat, p: real, q: real)
    requires n >= 1 && 0.0 <= p <= q <= 100.0
    ensures Position(n, p) <= Position(n, q)
  {
    MulMono(p, q, (n - 1) as real);
  }

  lemma Blend(a: real, b: real, f: real)
    ensures a * (1.0 - f) + b * f == a + f * (b - a)
  {
  }

  /** A weighted mean lies between its ends. */
  lemma Between(a: real, b: real, f: real)
    requires a <= b && 0.0 <= f <= 1.0
    ensures a <= a * (1.0 - f) + b * f <= b
  {
    Blend(a, b, f);
    MulMono(0.0, f, b - a);
    MulMono(f, 1.0, b - a);
  }

  /** and moves up with the weight. */
  lemma WeightMono(a: real, b: real, f: real, g: real)
    requires a <= b && f <= g
    ensures a * (1.0 - f) + b * f <= a * (1.0 - g) + b * g
  {
    Blend(a, b, f);
    Blend(a, b, g);
    MulMono(f, g, b - a);
  }

  lemma InterpolateBounds(s: seq<real>, x: real)
    requires s != [] && Ascending(s) && 0.0 <= x <= (|s| - 1) as real
    ensures s[x.Floor] <= Interpolate(s, x)
    ensures x.Floor + 1 < |s| ==> Interpolate(s, x) <= s[x.Floor + 1]
    ensures x.Floor == |s| - 1 ==> Interpolate(s, x) == s[|s| - 1]
  {
    var lo := x.Floor;
    var hi := if lo + 1 < |s| - 1 then lo + 1 else |s| - 1;
    var frac := x - lo as real;
    assert Interpolate(s, x) == s[lo] * (1.0 - frac) + s[hi] * frac;
    Between(s[lo], s[hi], frac);
  }

  lemma InterpolateMono(s: seq<real>, x: real, y: real)
    requires s != [] && Ascending(s) && 0.0 <= x <= y <= (|s| - 1) as real
    ensures Interpolate(s, x) <= Interpolate(s, y)
  {
    InterpolateBounds(s, x);
    InterpolateBounds(s, y);
    if x.Floor == y.Floor {
      var lo := x.Floor;
      var hi := if lo + 1 < |s| - 1 then lo + 1 else |s| - 1;
      WeightMono(s[lo], s[hi], x - lo as real, y - lo as real);
    } else {
      assert s[x.Floor + 1] <= s[y.Floor];
    }
  }

  /** On a sorted sample the percentile is monotone in p and stays in the sample's range. */
  lemma PercentileMonotone(s: seq<real>, p: real, q: real)
    requires s != [] && Ascending(s) && 0.0 <= p <= q <= 100.0
    ensures s[0] <= Percentile(s, p) <= Percentile(s, q) <= s[|s| - 1]
  {
    PositionMono(|s|, p, q);
    InterpolateMono(s, Position(|s|, p), Position(|s|, q));
    InterpolateBounds(s, Position(|s|, p));
    InterpolateBounds(s, Position(|s|, q));
  }

  /** At the position of a sample the percentile is that sample; so percentile 0
      is the minimum and 100 the maximum. */
  lemma PercentileAtSample(s: seq<real>, i: nat, p: real)
    requires i < |s| && 0.0 <= p <= 100.0 && p * (|s| - 1) as real == 100.0 * i as real
    ensures Percentile(s, p) == s[i]
  {
    assert Position(|s|, p) == i as real;
  }

  /** Between neighbouring samples, ends included, it climbs at a constant rate:
      the interpolation is continuous and linear piece by piece. */
  lemma InterpolateLinear(s: seq<real>, i: nat, x: real, y: real)
    requires i + 1 < |s| && i as real <= x <= y <= (i + 1) as real
    ensures Interpolate(s, y) - Interpolate(s, x) == (y - x) * (s[i + 1] - s[i])
  {
    FromLeft(s, i, x);
    FromLeft(s, i, y);
    Spread(s[i], x - i as real, y - i as real, s[i + 1] - s[i]);
    assert (y - i as real) - (x - i as real) == y - x;
  }

  lemma FromLeft(s: seq<real>, i: nat, x: real)
    requires i + 1 < |s| && i as real <= x <= (i + 1) as real
    ensures Interpolate(s, x) == s[i] + (x - i as real) * (s[i + 1] - s[i])
  {
    if x == (i + 1) as real {
      assert x.Floor == i + 1 && x - (i + 1) as real == 0.0 && x - i as real == 1.0;
      var hi := if i + 2 < |s| - 1 then i + 2 else |s| - 1;
      assert Interpolate(s, x) == s[i + 1] * (1.0 - 0.0) + s[hi] * 0.0;
      Blend(s[i + 1], s[hi], 0.0);
    } else {
      assert x.Floor == i;
      Blend(s[i], s[i + 1], x - i as real);
    }
  }

  lemma Spread(a: real, f: real, g: real, d: real)
    ensures (a + g * d) - (a + f * d) == (g - f) * d
  {
  }

  /** In terms of p: between neighbouring sample positions, ends included, the
      percentile is linear in p. */
  lemma PercentileLinear(s: seq<real>, i: nat, p: real, q: real)
    requires i + 1 < |s| && 0.0 <= p <= q <= 100.0
    requires 100.0 * i as real <= p * (|s| - 1) as real
    requires q * (|s| - 1) as real <= 100.0 * (i + 1) as real
    ensures Percentile(s, q) - Percentile(s, p) == (q - p) * ((|s| - 1) as real / 100.0) * (s[i + 1] - s[i])
  {
    PositionMono(|s|, p, q);
    var x, y := Position(|s|, p), Position(|s|, q);
    assert 100.0 * x == p * (|s| - 1) as real;
    assert 100.0 * y == q * (|s| - 1) as real;
    InterpolateLinear(s, i, x, y);
    assert y - x == (q - p) * ((|s| - 1) as real / 100.0);
  }

  /******* The summary *******/

  function Sum(s: seq<real>): real {
    if s == [] then 0.0 else Sum(s[..|s| - 1]) + s[|s| - 1]
  }

  function Mean(s: seq<real>): real
    requires s != []
  {
    Sum(s) / |s| as real
  }

  lemma {:induction false} SumBounds(s: seq<real>, lo: real, hi: real)
    requires forall i :: 0 <= i < |s| ==> lo <= s[i] <= hi
    ensures lo * |s| as real <= Sum(s) <= hi * |s| as real
  {
    if s != [] {
      SumBounds(s[..|s| - 1], lo, hi);
      assert lo * |s| as real == lo * (|s| - 1) as real + lo;
      assert hi * |s| as real == hi * (|s| - 1) as real + hi;
    }
  }

  /** The two tables of critical values: that of `summarize` in
      benchmarks/stats.py and the shorter one of benchmarks/bench_writes.py. */
  datatype Table = Long | Short

  function TCritical(table: Table, df: nat): (t: real)
    requires df >= 1
    ensures t >= 1.96
  {
    match df
    case 1 => 12.706 case 2 => 4.303 case 3 => 3.182 case 4 => 2.776 case 5 => 2.571
    case 6 => 2.447 case 7 => 2.365 case 8 => 2.306 case 9 => 2.262 case 10 => 2.228
    case _ =>
      if table.Long? && df == 15 then 2.131
      else if table.Long? && df == 20 then 2.086
      else if table.Long? && df == 25 then 2.060
      else if df < 30 then 2.045
      else 1.96
  }

  /** The tables, entry by entry, and what they give between entries. */
  lemma TablesAre(table: Table, df: nat)
    requires df >= 1
    ensures df <= 10 ==>
              TCritical(table, df) ==
              [12.706, 4.303, 3.182, 2.776, 2.571, 2.447, 2.365, 2.306, 2.262, 2.228][df - 1]
    ensures table.Long? ==> TCritical(table, 15) == 2.131 && TCritical(table, 20) == 2.086
    ensures table.Long? ==> TCritical(table, 25) == 2.060 && TCritical(table, 29) == 2.045
    ensures df > 10 && (table.Short? || df !in {15, 20, 25}) ==>
              TCritical(table, df) == if df < 30 then 2.045 else 1.96
  {
  }

  /** Whatever the true critical values are, they fall as the degrees of freedom
      grow; and the entries of the tables are true values. */
  ghost predicate TrueValues(t: nat -> real) {
    && (forall m: nat, n: nat :: 1 <= m < n <= 29 ==> t(m) > t(n))
    && (forall df: nat :: df in Entries() ==> t(df) == TCritical(Long, df))
  }

  function Entries(): set<nat> {
    {1, 2, 3, 4, 5, 6, 7, 8, 9, 10, 15, 20, 25, 29}
  }

  /** There are such values: fill the gaps by straight lines. */
  function Filled(df: nat): real {
    if df == 0 then 0.0
    else if 10 < df < 15 then 2.228 - 0.0194 * (df - 10) as real
    else if 15 < df < 20 then 2.131 - 0.009 * (df - 15) as real
    else if 20 < df < 25 then 2.086 - 0.0052 * (df - 20) as real
    else if 25 < df < 29 then 2.060 - 0.00375 * (df - 25) as real
    else TCritical(Long, df)
  }

  lemma TrueValuesExist()
    ensures TrueValues(Filled)
  {
  }

  /** So for small samples the long table is conservative exactly at its entries:
      in every gap it gives less than the true value. */
  lemma ConservativeIff(t: nat -> real, df: nat)
    requires TrueValues(t) && 1 <= df <= 29
    ensures TCritical(Long, df) >= t(df) <==> df in Entries()
  {
    if df !in Entries() {
      assert t(df) > t(29);
    }
  }

  /** The short table is so exactly up to 10, and at 29. */
  lemma ShortConservativeIff(t: nat -> real, df: nat)
    requires TrueValues(t) && 1 <= df <= 29
    ensures TCritical(Short, df) >= t(df) <==> df <= 10 || df == 29
  {
    if 10 < df < 29 {
      assert t(df) > t(29);
    }
  }

  /** One can see it from the long table alone, which rises exactly from a gap
      between its entries to a later entry of 15, 20 or 25. */
  lemma LongTableDips(df: nat, df': nat)
    requires 1 <= df <= df'
    ensures TCritical(Long, df) < TCritical(Long, df') <==>
            10 < df < df' && df !in {15, 20, 25} && df' in {15, 20, 25}
  {
  }

  /** For example samples of 12 and of 28 get too small a value, the former one
      smaller than a sample of 16. */
  lemma NotConservative(t: nat -> real)
    requires TrueValues(t)
    ensures TCritical(Long, 11) < t(11) && TCritical(Long, 27) < t(27)
    ensures TCritical(Long, 11) < TCritical(Long, 15)
  {
    ConservativeIff(t, 11);
    ConservativeIff(t, 27);
    LongTableDips(11, 15);
  }

  /** The short table never rises; the two differ exactly at those three entries,
      where the long one gives the wider interval. */
  lemma ShortTableFalls(df: nat, df': nat)
    requires 1 <= df <= df'
    ensures TCritical(Short, df) >= TCritical(Short, df')
    ensures TCritical(Short, df) <= TCritical(Long, df)
    ensures TCritical(Short, df) == TCritical(Long, df) <==> df !in {15, 20, 25}
  {
  }

  lemma SquareNonNegative(x: real)
    ensures x * x >= 0.0
  {
    if x >= 0.0 {
      MulMono(0.0, x, x);
    } else {
      MulMono(0.0, -x, -x);
      assert x * x == -x * -x;
    }
  }

  /** The sum of squared deviations from `mean`. */
  function Deviations(s: seq<real>, mean: real): (d: real)
    ensures d >= 0.0
  {
    if s == [] then 0.0
    else
      var d := s[|s| - 1] - mean;
      SquareNonNegative(d);
      Deviations(s[..|s| - 1], mean) + d * d
  }

  /** The sum adds up: over parts, and over one sample it is that sample. */
  lemma {:induction false} SumAdds(s: seq<real>, t: seq<real>)
    ensures Sum(s + t) == Sum(s) + Sum(t)
    ensures |t| == 1 ==> Sum(t) == t[0]
  {
    if t == [] {
      assert s + t == s;
    } else {
      var n := |t| - 1;
      assert (s + t)[..|s + t| - 1] == s + t[..n];
      SumAdds(s, t[..n]);
    }
  }

  /** So do the squared deviations. */
  lemma {:induction false} DeviationsAdd(s: seq<real>, t: seq<real>, mean: real)
    ensures Deviations(s + t, mean) == Deviations(s, mean) + Deviations(t, mean)
    ensures |t| == 1 ==> Deviations(t, mean) == Square(t[0] - mean)
  {
    if t == [] {
      assert s + t == s;
    } else {
      var n := |t| - 1;
      assert (s + t)[..|s + t| - 1] == s + t[..n];
      DeviationsAdd(s, t[..n], mean);
    }
  }

  /** The mean times n is the sum. */
  lemma MeanTimes(s: seq<real>)
    requires s != []
    ensures Mean(s) * |s| as real == Sum(s)
  {
    Quotient(Mean(s), Sum(s), |s| as real);
  }

  /** The variance times n - 1 is the sum of squared deviations from the mean. */
  lemma VarianceTimes(s: seq<real>)
    requires |s| >= 2
    ensures Variance(s) * (|s| - 1) as real == Deviations(s, Mean(s))
  {
    Quotient(Variance(s), Deviations(s, Mean(s)), (|s| - 1) as real);
  }

  lemma Quotient(q: real, d: real, n: real)
    ensures n != 0.0 && q == d / n ==> q * n == d
  {
  }

  datatype Summary = Summary(mean: real, low: real, high: real, p50: real, p95: real, p99: real)

  /** `root` is a square root function on the non-negative reals. */
  ghost predicate IsRoot(root: real -> real) {
    forall x {:trigger root(x)} :: x >= 0.0 ==> root(x) >= 0.0 && Square(root(x)) == x
  }

  function Variance(s: seq<real>): (v: real)
    requires |s| >= 2
    ensures v >= 0.0
  {
    Deviations(s, Mean(s)) / (|s| - 1) as real
  }

  /** t * std / sqrt(n) */
  function Interval(t: real, std: real, rootN: real): real
    requires rootN != 0.0
  {
    t * std / rootN
  }

  function Margin(table: Table, s: seq<real>, root: real -> real): real
    requires s != [] && root(|s| as real) != 0.0
  {
    if |s| >= 2 then
      Interval(TCritical(table, |s| - 1), root(Variance(s)), root(|s| as real))
    else 0.0
  }

  /** `s` is the sorted sample; an empty one has no summary (NaN in the source). */
  function Summarize(table: Table, s: seq<real>, root: real -> real): Option<Summary>
    requires s != [] ==> root(|s| as real) != 0.0
  {
    if s == [] then None
    else
      var m, e := Mean(s), Margin(table, s, root);
      Some(Summary(m, m - e, m + e, Percentile(s, 50.0), Percentile(s, 95.0), Percentile(s, 99.0)))
  }

  lemma RootIs(root: real -> real, x: real)
    requires IsRoot(root) && x >= 0.0
    ensures root(x) >= 0.0 && Square(root(x)) == x
    ensures x > 0.0 ==> root(x) > 0.0
  {
  }

  lemma MarginNonNegative(table: Table, s: seq<real>, root: real -> real)
    requires s != [] && IsRoot(root)
    ensures root(|s| as real) > 0.0
    ensures Margin(table, s, root) >= 0.0
  {
    RootIs(root, |s| as real);
    if |s| >= 2 {
      RootIs(root, Variance(s));
      IntervalNonNegative(TCritical(table, |s| - 1), root(Variance(s)), root(|s| as real));
    }
  }

  lemma IntervalNonNegative(t: real, std: real, rootN: real)
    requires t >= 0.0 && std >= 0.0 && rootN > 0.0
    ensures Interval(t, std, rootN) >= 0.0
  {
    MulMono(0.0, t, std);
  }

  /** The margin is the critical value times the standard error: squared, it is
      t^2 times the sample variance over n. */
  lemma MarginSquared(table: Table, s: seq<real>, root: real -> real)
    requires |s| >= 2 && IsRoot(root)
    ensures root(|s| as real) > 0.0
    ensures Square(Margin(table, s, root)) * |s| as real == Square(TCritical(table, |s| - 1)) * Variance(s)
  {
    RootIs(root, |s| as real);
    RootIs(root, Variance(s));
    IntervalSquared(Margin(table, s, root), TCritical(table, |s| - 1), root(Variance(s)), Variance(s),
                    root(|s| as real), |s| as real);
  }

  function Square(x: real): real {
    x * x
  }

  lemma IntervalSquared(m: real, t: real, std: real, variance: real, rootN: real, n: real)
    requires rootN != 0.0 && m == Interval(t, std, rootN) && Square(std) == variance && Square(rootN) == n
    ensures Square(m) * n == Square(t) * variance
  {
    assert m * rootN == t * std;
    Regroup(m, rootN);
    Regroup(t, std);
  }

  lemma Regroup(x: real, y: real)
    ensures Square(x) * Square(y) == Square(x * y)
  {
  }

  /** For every sorted sample: the interval contains the mean, the mean lies in
      the sample's range, and p50 <= p95 <= p99. */
  lemma SummaryIsOrdered(table: Table, s: seq<real>, root: real -> real)
    requires s != [] && Ascending(s) && IsRoot(root)
    ensures root(|s| as real) > 0.0
    ensures
      var r := Summarize(table, s, root).value;
      && r.low <= r.mean <= r.high
      && s[0] <= r.mean <= s[|s| - 1]
      && s[0] <= r.p50 <= r.p95 <= r.p99 <= s[|s| - 1]
  {
    MarginNonNegative(table, s, root);
    MeanInRange(s);
    PercentileMonotone(s, 50.0, 95.0);
    PercentileMonotone(s, 95.0, 99.0);
  }

  lemma MeanInRange(s: seq<real>)
    requires s != [] && Ascending(s)
    ensures s[0] <= Mean(s) <= s[|s| - 1]
  {
    SumBounds(s, s[0], s[|s| - 1]);
    DivBounds(Sum(s), s[0], s[|s| - 1], |s| as real);
  }

  lemma DivBounds(x: real, lo: real, hi: real, n: real)
    requires n > 0.0 && lo * n <= x <= hi * n
    ensures lo <= x / n <= hi
  {
    assert x / n - lo == (x - lo * n) / n >= 0.0;
    assert hi - x / n == (hi * n - x) / n >= 0.0;
  }

  /** The summary of a sample: its mean, and an interval of half width `Margin`
      around it, none for a single sample. */
  lemma SummaryIs(table: Table, s: seq<real>, root: real -> real)
    requires s != [] && IsRoot(root)
    ensures root(|s| as real) > 0.0
    ensures
      var r, e := Summarize(table, s, root).value, Margin(table, s, root);
      r.mean == Mean(s) && r.low + e == r.mean == r.high - e && (|s| == 1 ==> e == 0.0)
  {
    RootIs(root, |s| as real);
  }

  lemma SummaryPercentiles(table: Table, s: seq<real>, root: real -> real, i: nat)
    requires i < |s| && IsRoot(root)
    ensures root(|s| as real) > 0.0
    ensures
      var r := Summarize(table, s, root).value;
      && (50 * (|s| - 1) == 100 * i ==> r.p50 == s[i])
      && (95 * (|s| - 1) == 100 * i ==> r.p95 == s[i])
      && (99 * (|s| - 1) == 100 * i ==> r.p99 == s[i])
  {
    RootIs(root, |s| as real);
    AtWhole(s, i, 50);
    AtWhole(s, i, 95);
    AtWhole(s, i, 99);
  }

  lemma AtWhole(s: seq<real>, i: nat, p: nat)
    requires i < |s| && p <= 100
    ensures p * (|s| - 1) == 100 * i ==> Percentile(s, p as real) == s[i]
  {
    if p * (|s| - 1) == 100 * i {
      assert p as real * (|s| - 1) as real == (p * (|s| - 1)) as real;
      PercentileAtSample(s, i, p as real);
    }
  }
}
