/**
 Order statistics behind the beacon score, over reals. The square root is a parameter, of which
 only its sign matters.
 */
module Stats {
  import opened Collections
  import opened Sorting

  function Sum(xs: seq<real>): real {
    if xs == [] then 0.0 else Sum(xs[..|xs| - 1]) + xs[|xs| - 1]
  }

  function Mean(xs: seq<real>): real {
    if xs == [] then 0.0 else Sum(xs) / |xs| as real
  }

  method ComputeMean(xs: seq<real>) returns (m: real)
    ensures m == Mean(xs)
  {
    if |xs| == 0 {
      return 0.0;
    }
    var sum := 0.0;
    for i := 0 to |xs|
      invariant sum == Sum(xs[..i])
    {
      sum := sum + xs[i];
      assert xs[..i + 1][..i] == xs[..i];
    }
    assert xs[..|xs|] == xs;
    return sum / |xs| as real;
  }

  function SquaredDeviations(xs: seq<real>, m: real): (r: real)
    ensures r >= 0.0
  {
    if xs == [] then 0.0
    else
      var d := xs[|xs| - 1] - m;
      SquareNotNegative(d);
      SquaredDeviations(xs[..|xs| - 1], m) + d * d
  }

  lemma SquareNotNegative(d: real)
    ensures d * d >= 0.0
  {
    if d >= 0.0 {
      assert d * d >= 0.0;
    } else {
      assert (-d) * (-d) >= 0.0;
    }
  }

  type Root = f: real -> real | forall x :: x >= 0.0 ==> f(x) >= 0.0 witness x => 0.0

  function StdDev(xs: seq<real>, sqrt: Root): real {
    if |xs| < 2 then 0.0 else sqrt(SquaredDeviations(xs, Mean(xs)) / |xs| as real)
  }

  method ComputeStdDev(xs: seq<real>, sqrt: Root) returns (s: real)
    ensures s == StdDev(xs, sqrt)
  {
    if |xs| < 2 {
      return 0.0;
    }
    var m := ComputeMean(xs);
    var sum := 0.0;
    for i := 0 to |xs|
      invariant sum == SquaredDeviations(xs[..i], m)
    {
      var d := xs[i] - m;
      sum := sum + d * d;
      assert xs[..i + 1][..i] == xs[..i];
    }
    assert xs[..|xs|] == xs;
    return sqrt(sum / |xs| as real);
  }

  /** Deviation relative to the mean, zero when the mean is. */
  function CoeffVar(xs: seq<real>, sqrt: Root): real {
    if Mean(xs) == 0.0 then 0.0 else StdDev(xs, sqrt) / Mean(xs)
  }

  function Middle(s: seq<real>): real
    requires s != []
  {
    if |s| % 2 == 1 then s[|s| / 2] else (s[|s| / 2 - 1] + s[|s| / 2]) / 2.0
  }

  function Median(xs: seq<real>): real {
    if xs == [] then 0.0 else Middle(Sort(xs, RealKey))
  }

  function Abs(x: real): real { if x < 0.0 then -x else x }

  function Deviations(xs: seq<real>, m: real): (ds: seq<real>)
    ensures |ds| == |xs|
    ensures forall i | 0 <= i < |xs| :: ds[i] == Abs(xs[i] - m)
  {
    if xs == [] then [] else Deviations(xs[..|xs| - 1], m) + [Abs(xs[|xs| - 1] - m)]
  }

  /** The median absolute deviation as a fraction of the median. */
  function MadRatio(xs: seq<real>): real {
    if xs == [] || Median(xs) == 0.0 then 0.0 else Median(Deviations(xs, Median(xs))) / Median(xs)
  }

  lemma DeviationsNext(xs: seq<real>, med: real, i: nat)
    requires i < |xs|
    ensures Deviations(xs[..i + 1], med) == Deviations(xs[..i], med) + [Abs(xs[i] - med)]
  {
    assert xs[..i + 1][..i] == xs[..i];
  }

  lemma DeviationsEnds(xs: seq<real>, med: real)
    ensures Deviations(xs[..0], med) == [] && xs[..|xs|] == xs
  {
  }

  method ComputeMadRatio(xs: seq<real>) returns (r: real)
    ensures r == MadRatio(xs)
  {
    hide Median, Deviations;
    if |xs| == 0 {
      return 0.0;
    }
    var med := Median(xs);
    if med == 0.0 {
      return 0.0;
    }
    var devs := [];
    DeviationsEnds(xs, med);
    for i := 0 to |xs|
      invariant devs == Deviations(xs[..i], med)
    {
      DeviationsNext(xs, med, i);
      devs := devs + [Abs(xs[i] - med)];
    }
    return Median(devs) / med;
  }

  // --- what the measures are ---

  ghost predicate InOrder(s: seq<real>) { forall i, j | 0 <= i < j < |s| :: s[i] <= s[j] }

  /** The median is the middle of the values in order, or halfway between the two in the middle. */
  lemma MedianReads(xs: seq<real>)
    requires xs != []
    ensures exists s ::
              && multiset(s) == multiset(xs) && |s| == |xs| && InOrder(s)
              && 2.0 * Median(xs) == s[(|s| - 1) / 2] + s[|s| / 2]
  {
    var s := Sort(xs, RealKey);
    SortSorts(xs, RealKey);
    hide Sort;
    forall i, j | 0 <= i < j < |s| ensures s[i] <= s[j] {
      assert RealKey(s[i]) <= RealKey(s[j]);
    }
  }

  /** The ratio times the median is the median distance from it. */
  lemma MadRatioReads(xs: seq<real>)
    requires xs != [] && Median(xs) != 0.0
    ensures exists ds: seq<real> ::
              && |ds| == |xs| && (forall i | 0 <= i < |xs| :: ds[i] >= 0.0 && (ds[i] == xs[i] - Median(xs) || ds[i] == Median(xs) - xs[i]))
              && MadRatio(xs) * Median(xs) == Median(ds)
  {
    hide Median;
    assert |Deviations(xs, Median(xs))| == |xs|;
  }

  /** The spread relative to the mean, and none of too few values to have any. */
  lemma CoeffVarReads(xs: seq<real>, sqrt: Root)
    ensures Mean(xs) != 0.0 ==> CoeffVar(xs, sqrt) * Mean(xs) == StdDev(xs, sqrt)
    ensures Mean(xs) == 0.0 || |xs| < 2 ==> CoeffVar(xs, sqrt) == 0.0
    ensures xs == [] || Median(xs) == 0.0 ==> MadRatio(xs) == 0.0
    ensures xs == [] ==> Mean(xs) == Median(xs) == 0.0
  {
    hide SquaredDeviations, Sum, Middle;
  }

  function Square(x: real): real { x * x }

  function SumSquares(xs: seq<real>): real {
    if xs == [] then 0.0 else SumSquares(xs[..|xs| - 1]) + Square(xs[|xs| - 1])
  }

  lemma SquareOfDifference(x: real, m: real)
    ensures Square(x - m) == Square(x) - 2.0 * Times(m, x) + Square(m)
  {
  }

  lemma OneMore(n: real, q: real, s: real, x: real, m: real)
    ensures Times(n + 1.0, q) == Times(n, q) + q && Times(m, s + x) == Times(m, s) + Times(m, x)
  {
  }

  lemma DeviationsGrow(xs: seq<real>, m: real)
    requires xs != []
    ensures SquaredDeviations(xs, m) == SquaredDeviations(xs[..|xs| - 1], m) + Square(xs[|xs| - 1] - m)
  {
  }

  lemma NoDeviations(m: real)
    ensures SquaredDeviations([], m) == SumSquares([]) == Sum([]) == 0.0 && Times(m, 0.0) == 0.0
    ensures Times(0.0, Square(m)) == 0.0
  {
  }

  lemma {:induction false} SquaresExpand(xs: seq<real>, m: real)
    ensures SquaredDeviations(xs, m) == SumSquares(xs) - 2.0 * Times(m, Sum(xs)) + Times(|xs| as real, Square(m))
  {
    hide Square, Times, SquaredDeviations;
    if xs == [] {
      NoDeviations(m);
    } else {
      var rest, x := xs[..|xs| - 1], xs[|xs| - 1];
      SquaresExpand(rest, m);
      DeviationsGrow(xs, m);
      SquareOfDifference(x, m);
      OneMore(|rest| as real, Square(m), Sum(rest), x, m);
    }
  }

  /** The deviation's square, under a root that is one, is the mean square less the square of the mean. */
  lemma StdDevReads(xs: seq<real>, sqrt: Root)
    requires |xs| >= 2 && forall x | x >= 0.0 :: Square(sqrt(x)) == x
    ensures var n := |xs| as real;
            StdDev(xs, sqrt) >= 0.0 && Times(n, Times(n, Square(StdDev(xs, sqrt)))) == Times(n, SumSquares(xs)) - Square(Sum(xs))
  {
    hide SquaredDeviations, SumSquares, Sum, Mean, Square, Times;
    var n, m, q := |xs| as real, Mean(xs), SquaredDeviations(xs, Mean(xs));
    SquaresExpand(xs, m);
    MeanReads(xs);
    Quotient(q, n);
    Variance(n, m, Sum(xs), SumSquares(xs), q);
    TimesInverse(n, q);
  }

  lemma MeanReads(xs: seq<real>)
    requires xs != []
    ensures Times(|xs| as real, Mean(xs)) == Sum(xs)
  {
  }

  lemma Variance(n: real, m: real, s: real, sq: real, q: real)
    requires s == Times(n, m) && q == sq - 2.0 * Times(m, s) + Times(n, Square(m))
    ensures Times(n, q) == Times(n, sq) - Square(s)
  {
    assert n * (m * s) == s * s;
    assert n * (n * (m * m)) == (n * m) * (n * m);
    assert n * q == n * sq - 2.0 * (n * (m * s)) + n * (n * (m * m));
  }

  // --- outliers do not move the median ---

  /** More than half of the values are `v`. */
  ghost predicate Majority(xs: seq<real>, v: real) { 2 * multiset(xs)[v] > |xs| }

  lemma {:induction false} CountAtMost(xs: seq<real>, v: real)
    ensures multiset(xs)[v] <= |xs|
    ensures v !in xs ==> multiset(xs)[v] == 0
  {
    if xs != [] {
      assert xs == xs[..|xs| - 1] + [xs[|xs| - 1]];
      CountAtMost(xs[..|xs| - 1], v);
    }
  }

  /** A value missing from one part occurs at most as often as the rest is long. */
  lemma MissingPart(s: seq<real>, v: real, i: nat, j: nat)
    requires i <= j <= |s| && v !in s[i..j]
    ensures multiset(s)[v] <= |s| - (j - i)
  {
    assert s == s[..i] + s[i..j] + s[j..];
    CountAtMost(s[..i], v);
    CountAtMost(s[i..j], v);
    CountAtMost(s[j..], v);
  }

  /** In sorted order a majority value fills the middle. */
  lemma MajorityAt(s: seq<real>, v: real, k: nat)
    requires SortedBy(s, RealKey) && Majority(s, v) && s != []
    requires k == |s| / 2 || (|s| % 2 == 0 && k == |s| / 2 - 1)
    ensures s[k] == v
  {
    if s[k] < v {
      forall i | 0 <= i <= k ensures s[i] != v {
        assert RealKey(s[i]) <= RealKey(s[k]);
      }
      MissingPart(s, v, 0, k + 1);
    } else if s[k] > v {
      forall i | k <= i < |s| ensures s[i] != v {
        assert RealKey(s[k]) <= RealKey(s[i]);
      }
      MissingPart(s, v, k, |s|);
    }
  }

  lemma MajorityMedian(xs: seq<real>, v: real)
    requires Majority(xs, v)
    ensures xs != [] && Median(xs) == v
  {
    hide Sort, SortedBy, RealKey;
    CountAtMost(xs, v);
    var s := Sort(xs, RealKey);
    SortSorts(xs, RealKey);
    MajorityAt(s, v, |s| / 2);
    if |s| % 2 == 0 {
      MajorityAt(s, v, |s| / 2 - 1);
    }
  }

  lemma {:induction false} DeviationsCount(xs: seq<real>, v: real)
    ensures multiset(Deviations(xs, v))[0.0] == multiset(xs)[v]
  {
    hide Deviations;
    if xs != [] {
      DeviationsCount(xs[..|xs| - 1], v);
      CountLast(xs, v);
      CountLast(Deviations(xs, v), 0.0);
      DeviationsLast(xs, v);
    } else {
      assert Deviations(xs, v) == [];
    }
  }

  lemma DeviationsLast(xs: seq<real>, m: real)
    requires xs != []
    ensures Deviations(xs, m)[..|xs| - 1] == Deviations(xs[..|xs| - 1], m)
  {
  }

  /** If more than half of the gaps are one value, their spread is zero whatever the outliers. */
  lemma MajorityMadRatio(xs: seq<real>, v: real)
    requires Majority(xs, v)
    ensures MadRatio(xs) == 0.0
  {
    hide Majority, Median, Deviations;
    MajorityMedian(xs, v);
    DeviationsMajority(xs, v);
    MajorityMedian(Deviations(xs, v), 0.0);
  }

  lemma DeviationsMajority(xs: seq<real>, v: real)
    requires Majority(xs, v)
    ensures Majority(Deviations(xs, v), 0.0)
  {
    hide Deviations;
    DeviationsCount(xs, v);
  }

  // --- the ratio has no unit ---

  function Times(k: real, x: real): real { k * x }

  function Scaled(xs: seq<real>, k: real): (r: seq<real>)
    ensures |r| == |xs|
    ensures forall i | 0 <= i < |xs| :: r[i] == Times(k, xs[i])
  {
    if xs == [] then [] else Scaled(xs[..|xs| - 1], k) + [Times(k, xs[|xs| - 1])]
  }

  lemma ScaleOrder(k: real, x: real, y: real)
    requires k > 0.0
    ensures x < y <==> Times(k, x) < Times(k, y)
    ensures x == y <==> Times(k, x) == Times(k, y)
  {
    if x < y {
      PositiveProduct(k, y - x);
      assert k * (y - x) == k * y - k * x;
    } else if y < x {
      PositiveProduct(k, x - y);
      assert k * (x - y) == k * x - k * y;
    }
  }

  lemma ScaledLast(xs: seq<real>, k: real)
    requires xs != []
    ensures Scaled(xs, k)[..|xs| - 1] == Scaled(xs[..|xs| - 1], k)
  {
    hide Times;
  }

  lemma {:induction false} ScaledCount(xs: seq<real>, k: real, v: real)
    requires k > 0.0
    ensures multiset(Scaled(xs, k))[Times(k, v)] == multiset(xs)[v]
  {
    hide Times;
    if xs != [] {
      ScaledCount(xs[..|xs| - 1], k, v);
      ScaledLast(xs, k);
      ScaleOrder(k, xs[|xs| - 1], v);
      CountLast(xs, v);
      CountLast(Scaled(xs, k), Times(k, v));
    }
  }

  lemma TimesInverse(k: real, w: real)
    requires k != 0.0
    ensures Times(k, w / k) == w
  {
  }

  lemma ScaledPermutes(a: seq<real>, b: seq<real>, k: real)
    requires k > 0.0 && multiset(a) == multiset(b)
    ensures multiset(Scaled(a, k)) == multiset(Scaled(b, k))
  {
    hide Times, Scaled;
    forall w ensures multiset(Scaled(a, k))[w] == multiset(Scaled(b, k))[w] {
      var v := w / k;
      TimesInverse(k, w);
      ScaledCount(a, k, v);
      ScaledCount(b, k, v);
    }
  }

  lemma ScaledSorted(s: seq<real>, k: real)
    requires k > 0.0 && SortedBy(s, RealKey)
    ensures SortedBy(Scaled(s, k), RealKey)
  {
    hide Times;
    forall i, j | 0 <= i < j < |s| ensures RealKey(Scaled(s, k)[i]) <= RealKey(Scaled(s, k)[j]) {
      assert RealKey(s[i]) <= RealKey(s[j]);
      ScaleOrder(k, s[j], s[i]);
    }
  }

  lemma RealsDecide(s: seq<real>)
    ensures KeyDecides(s, RealKey)
  {
  }

  lemma ScaledSort(xs: seq<real>, k: real)
    requires k > 0.0
    ensures Sort(Scaled(xs, k), RealKey) == Scaled(Sort(xs, RealKey), k)
  {
    hide Times, Scaled, Sort, SortedBy, KeyDecides;
    SortSorts(xs, RealKey);
    SortSorts(Scaled(xs, k), RealKey);
    ScaledPermutes(xs, Sort(xs, RealKey), k);
    ScaledSorted(Sort(xs, RealKey), k);
    RealsDecide(Sort(Scaled(xs, k), RealKey));
    SortedUnique(Sort(Scaled(xs, k), RealKey), Scaled(Sort(xs, RealKey), k), RealKey);
  }

  lemma ScaledMiddle(s: seq<real>, k: real)
    requires s != []
    ensures Middle(Scaled(s, k)) == Times(k, Middle(s))
  {
    if |s| % 2 == 0 {
      var a, b := s[|s| / 2 - 1], s[|s| / 2];
      assert k * a + k * b == k * (a + b);
    }
  }

  lemma ScaledMedian(xs: seq<real>, k: real)
    requires k > 0.0
    ensures Median(Scaled(xs, k)) == Times(k, Median(xs))
  {
    hide Scaled, Sort, Middle;
    if xs == [] {
      assert Scaled(xs, k) == [];
    } else {
      ScaledSort(xs, k);
      ScaledMiddle(Sort(xs, RealKey), k);
    }
  }

  lemma ScaledDistance(k: real, x: real, m: real)
    requires k > 0.0
    ensures Abs(Times(k, x) - Times(k, m)) == Times(k, Abs(x - m))
  {
    ScaleOrder(k, x, m);
    assert k * x - k * m == k * (x - m);
  }

  lemma ScaledDeviations(xs: seq<real>, m: real, k: real)
    requires k > 0.0
    ensures Deviations(Scaled(xs, k), Times(k, m)) == Scaled(Deviations(xs, m), k)
  {
    hide Times, Abs, Scaled, Deviations;
    forall i | 0 <= i < |xs| ensures Deviations(Scaled(xs, k), Times(k, m))[i] == Scaled(Deviations(xs, m), k)[i] {
      ScaledDistance(k, xs[i], m);
    }
  }

  /** Measuring the gaps in another unit leaves the ratio alone. */
  lemma MadRatioScales(xs: seq<real>, k: real)
    requires k > 0.0
    ensures MadRatio(Scaled(xs, k)) == MadRatio(xs)
  {
    hide Times, Scaled, Median, Deviations;
    var m := Median(xs);
    ScaledMedian(xs, k);
    ScaleOrder(k, m, 0.0);
    CancelFactor(k, Median(Deviations(xs, m)), m);
    ScaledDeviations(xs, m, k);
    ScaledMedian(Deviations(xs, m), k);
  }

  lemma CancelFactor(k: real, d: real, m: real)
    requires k > 0.0
    ensures Times(k, m) == 0.0 <==> m == 0.0
    ensures m != 0.0 ==> Times(k, d) / Times(k, m) == d / m
  {
    if m != 0.0 {
      var q := d / m;
      assert q * m == d;
      assert k * d == q * (k * m);
    }
  }

  // --- gaps ---

  function Clamp(x: real, lo: real, hi: real): real {
    var y := if x > lo then x else lo;
    if y < hi then y else hi
  }

  /** Map `[lo, hi]` onto the unit interval, saturating outside it. */
  function Normalize(x: real, lo: real, hi: real): (r: real)
    ensures 0.0 <= r <= 1.0
    ensures lo < hi && x >= hi ==> r == 1.0
    ensures lo < hi && x <= lo ==> r == 0.0
  {
    if hi <= lo then 0.0
    else
      NormalizeEnds(x, lo, hi);
      Clamp((x - lo) / (hi - lo), 0.0, 1.0)
  }

  /** Inside its range the value rises in a straight line. */
  lemma NormalizeBetween(x: real, lo: real, hi: real)
    requires lo < hi && lo <= x <= hi
    ensures Normalize(x, lo, hi) * (hi - lo) == x - lo
  {
    Quotient(x - lo, hi - lo);
  }

  lemma NormalizeEnds(x: real, lo: real, hi: real)
    requires lo < hi
    ensures x >= hi ==> (x - lo) / (hi - lo) >= 1.0
    ensures x <= lo ==> (x - lo) / (hi - lo) <= 0.0
  {
    Quotient(x - lo, hi - lo);
  }

  lemma Quotient(x: real, y: real)
    requires y > 0.0
    ensures x >= y ==> x / y >= 1.0
    ensures x <= y ==> x / y <= 1.0
    ensures x >= 0.0 ==> x / y >= 0.0
    ensures x <= 0.0 ==> x / y <= 0.0
  {
    SmallFactor(x / y, y);
  }

  lemma SmallFactor(q: real, y: real)
    requires y > 0.0
    ensures q < 1.0 ==> q * y < y
  {
    if q < 1.0 {
      PositiveProduct(1.0 - q, y);
      assert (1.0 - q) * y == y - q * y;
    }
  }

  lemma PositiveProduct(a: real, b: real)
    requires a > 0.0 && b > 0.0
    ensures a * b > 0.0
  {
  }

  /** The gaps between successive times; a step backwards counts as none. */
  function Gaps(times: seq<real>): (r: seq<real>)
    ensures |r| == if |times| < 2 then 0 else |times| - 1
    ensures forall i | 0 <= i < |r| :: r[i] >= 0.0
  {
    if |times| < 2 then []
    else
      var d := times[|times| - 1] - times[|times| - 2];
      Gaps(times[..|times| - 1]) + [if d < 0.0 then 0.0 else d]
  }

  method ComputeGaps(times: seq<real>) returns (out: seq<real>)
    ensures out == Gaps(times)
  {
    if |times| < 2 {
      return [];
    }
    out := [];
    for i := 1 to |times|
      invariant out == Gaps(times[..i])
    {
      var d := times[i] - times[i - 1];
      if d < 0.0 {
        d := 0.0;
      }
      out := out + [d];
      assert times[..i + 1][..i] == times[..i];
    }
    assert times[..|times|] == times;
  }

  /** Each gap is the time from one to the next, none when that steps backwards. */
  lemma {:induction false} GapAt(times: seq<real>, i: nat)
    requires i + 1 < |times|
    ensures Gaps(times)[i] == if times[i + 1] < times[i] then 0.0 else times[i + 1] - times[i]
    decreases |times|
  {
    if i + 2 < |times| {
      GapAt(times[..|times| - 1], i);
    }
  }

  /** Over times in order the gaps add up to the whole span. */
  lemma {:induction false} GapsSpan(times: seq<real>)
    requires times != [] && SortedBy(times, RealKey)
    ensures Sum(Gaps(times)) == times[|times| - 1] - times[0]
  {
    if |times| > 1 {
      var n := |times| - 1;
      GapsSpan(times[..n]);
      assert RealKey(times[n - 1]) <= RealKey(times[n]);
      var d := times[n] - times[n - 1];
      assert (Gaps(times[..n]) + [d])[..n - 1] == Gaps(times[..n]);
    }
  }
}
