/** Order statistics and squared deviations: what the profiler's numbers mean. */
module Statistics {
  import opened RealSums
  import opened RealMath

  function Itself(x: real): real { x }

  ghost function Square(centre: real): real -> real {
    x => (x - centre) * (x - centre)
  }

  ghost function Below(v: real): real -> real {
    x => if x < v then 1.0 else 0.0
  }

  ghost function UpTo(v: real): real -> real {
    x => if x <= v then 1.0 else 0.0
  }

  ghost function Total(s: seq<real>): real { SumOf(Itself, s) }

  /** The sum of squared deviations of `s` from `centre`. */
  ghost function Squares(centre: real, s: seq<real>): real { SumOf(Square(centre), s) }

  /** `v` is the value in slot `k` of any sorted listing of `s`: at most `k` values lie under it,
      and more than `k` do not exceed it. */
  ghost predicate HasRank(v: real, s: seq<real>, k: int) {
    SumOf(Below(v), s) <= k as real < SumOf(UpTo(v), s)
  }

  lemma {:induction false} SumBetween(f: real -> real, low: real, high: real, s: seq<real>)
    requires forall i :: 0 <= i < |s| ==> low <= f(s[i]) <= high
    ensures low * |s| as real <= SumOf(f, s) <= high * |s| as real
  {
    if s != [] {
      SumBetween(f, low, high, s[1..]);
      assert |s| as real == |s[1..]| as real + 1.0;
    }
  }

  lemma SumSplit(f: real -> real, s: seq<real>, k: nat)
    requires k <= |s|
    ensures SumOf(f, s) == SumOf(f, s[..k]) + SumOf(f, s[k..])
  {
    SumConcat(f, s[..k], s[k..]);
    assert s == s[..k] + s[k..];
  }

  lemma FewBelow(s: seq<real>, k: nat)
    requires k < |s| && forall i :: k < i < |s| ==> s[k] <= s[i]
    ensures SumOf(Below(s[k]), s) <= k as real
  {
    SumBetween(Below(s[k]), 0.0, 1.0, s[..k]);
    SumBetween(Below(s[k]), 0.0, 0.0, s[k..]);
    SumSplit(Below(s[k]), s, k);
  }

  lemma ManyUpTo(s: seq<real>, k: nat)
    requires k < |s| && forall i :: 0 <= i < k ==> s[i] <= s[k]
    ensures (k + 1) as real <= SumOf(UpTo(s[k]), s)
  {
    var f := UpTo(s[k]);
    SumSplit(f, s, k + 1);
    assert SumOf(f, s[..k + 1]) >= (k + 1) as real by {
      SumBetween(f, 1.0, 1.0, s[..k + 1]);
    }
    assert SumOf(f, s[k + 1..]) >= 0.0 by {
      SumBetween(f, 0.0, 1.0, s[k + 1..]);
    }
  }

  /** The slots of a sorted sequence are its ranks. */
  lemma SortedHasRank(s: seq<real>, k: nat)
    requires k < |s| && forall i, j :: 0 <= i < j < |s| ==> s[i] <= s[j]
    ensures HasRank(s[k], s, k)
  {
    FewBelow(s, k);
    ManyUpTo(s, k);
  }

  lemma RankOfRearranged(v: real, s: seq<real>, t: seq<real>, k: int)
    requires multiset(s) == multiset(t) && HasRank(v, s, k)
    ensures HasRank(v, t, k)
  {
    SumPermutation(Below(v), s, t);
    SumPermutation(UpTo(v), s, t);
  }

  lemma {:induction false} SumOrder(f: real -> real, g: real -> real, s: seq<real>)
    requires forall i :: 0 <= i < |s| ==> f(s[i]) <= g(s[i])
    ensures SumOf(f, s) <= SumOf(g, s)
  {
    if s != [] {
      SumOrder(f, g, s[1..]);
    }
  }

  /** Values of higher rank are no smaller; in particular each rank has one value. */
  lemma RanksAreOrdered(u: real, v: real, s: seq<real>, j: int, k: int)
    requires HasRank(u, s, j) && HasRank(v, s, k) && j <= k
    ensures u <= v
  {
    if v < u {
      SumOrder(UpTo(v), Below(u), s);
      assert false;
    }
  }

  /** A value with a rank was recorded. */
  lemma RankedIsPresent(v: real, s: seq<real>, k: int)
    requires HasRank(v, s, k)
    ensures v in s
  {
    if v !in s {
      SumOrder(UpTo(v), Below(v), s);
      assert false;
    }
  }

  lemma {:induction false} CountIsWhole(v: real, s: seq<real>) returns (n: nat)
    ensures SumOf(UpTo(v), s) == n as real
  {
    n := 0;
    if s != [] {
      n := CountIsWhole(v, s[1..]);
      if s[0] <= v {
        n := n + 1;
      }
    }
  }

  /** `v` is the value of `s` at the fraction `p`: no more than this fraction of the values lies under
      it, and more than this fraction does not exceed it. Outside of [0, 1) it is an extreme value. */
  ghost predicate IsQuantile(v: real, s: seq<real>, p: real) {
    && v in s
    && if p < 0.0 then forall x :: x in s ==> v <= x
       else if p < 1.0 then SumOf(Below(v), s) <= |s| as real * p < SumOf(UpTo(v), s)
       else forall x :: x in s ==> x <= v
  }

  /** There is no other such value. */
  lemma QuantileIsUnique(u: real, v: real, s: seq<real>, p: real)
    requires IsQuantile(u, s, p) && IsQuantile(v, s, p)
    ensures u == v
  {
    if 0.0 <= p < 1.0 {
      if u < v {
        SumOrder(UpTo(u), Below(v), s);
      } else if v < u {
        SumOrder(UpTo(v), Below(u), s);
      }
    }
  }

  /** Every present value lies between the values of the first and the last rank. */
  lemma RankWithin(x: real, w: seq<real>, low: real, high: real)
    requires x in w && HasRank(low, w, 0) && HasRank(high, w, |w| - 1)
    ensures low <= x <= high
  {
    var i :| 0 <= i < |w| && w[i] == x;
    if x < low {
      SumSplit(Below(low), w, i);
      SumBetween(Below(low), 0.0, 1.0, w[..i]);
      SumBetween(Below(low), 0.0, 1.0, w[i..][1..]);
      assert false;
    }
    if high < x {
      SumSplit(UpTo(high), w, i);
      SumBetween(UpTo(high), 0.0, 1.0, w[..i]);
      SumBetween(UpTo(high), 0.0, 1.0, w[i..][1..]);
      assert false;
    }
  }

  /** Below a rank that is a fraction of the length, rounded down, no more than the fraction lies. */
  lemma RankIsQuantile(v: real, s: seq<real>, k: int, p: real)
    requires HasRank(v, s, k) && 0.0 <= p < 1.0 && k as real <= |s| as real * p < k as real + 1.0
    ensures IsQuantile(v, s, p)
  {
    RankedIsPresent(v, s, k);
    var n := CountIsWhole(v, s);
    assert n >= k + 1;
  }

  /** The first and the last rank belong to the extremes. */
  lemma EndIsQuantile(v: real, low: real, high: real, s: seq<real>, k: int, p: real)
    requires HasRank(low, s, 0) && HasRank(high, s, |s| - 1) && HasRank(v, s, k)
    requires if p < 0.0 then k == 0 else p >= 1.0 && k == |s| - 1
    ensures IsQuantile(v, s, p)
  {
    RankedIsPresent(v, s, k);
    forall x | x in s ensures if p < 0.0 then v <= x else x <= v {
      if p < 0.0 {
        RankWithin(x, s, v, high);
      } else {
        RankWithin(x, s, low, v);
      }
    }
  }

  lemma Distribute(a: real, x: real, y: real)
    ensures a * (x + y) == a * x + a * y
  {
  }

  lemma {:induction false} SumCombine(f: real -> real, g: real -> real, a: real, b: real, s: seq<real>)
    requires forall x :: f(x) == g(x) + a * x + b
    ensures SumOf(f, s) == SumOf(g, s) + a * Total(s) + b * |s| as real
  {
    if s != [] {
      SumCombine(f, g, a, b, s[1..]);
      Distribute(a, s[0], Total(s[1..]));
      Distribute(b, 1.0, |s[1..]| as real);
      assert |s| as real == 1.0 + |s[1..]| as real;
    }
  }

  ghost function Deviation(centre: real): real -> real {
    x => x - centre
  }

  /** `mean` is the mean of `s`: the deviations from it cancel. */
  ghost predicate IsMean(mean: real, s: seq<real>) {
    SumOf(Deviation(mean), s) == 0.0
  }

  lemma IsMeanIff(mean: real, s: seq<real>)
    ensures IsMean(mean, s) <==> mean * |s| as real == Total(s)
  {
    SumCombine(Deviation(mean), Itself, 0.0, -mean, s);
  }

  lemma SquareMoved(x: real, mean: real, centre: real)
    ensures (x - centre) * (x - centre)
         == (x - mean) * (x - mean) + 2.0 * (mean - centre) * x + (centre * centre - mean * mean)
  {
  }

  lemma MoveSquares(mean: real, centre: real)
    ensures forall x :: Square(centre)(x)
                     == Square(mean)(x) + 2.0 * (mean - centre) * x + (centre * centre - mean * mean)
  {
    forall x
      ensures Square(centre)(x) == Square(mean)(x) + 2.0 * (mean - centre) * x + (centre * centre - mean * mean)
    {
      SquareMoved(x, mean, centre);
    }
  }

  lemma MoveTotal(mean: real, centre: real, n: real)
    ensures 2.0 * (mean - centre) * (mean * n) + (centre * centre - mean * mean) * n
         == n * ((centre - mean) * (centre - mean))
  {
  }

  /** Moving the centre of a square adds a linear function, whose sum is known once the total is. */
  lemma MoveCentre(mean: real, centre: real, n: real, total: real) returns (a: real, b: real)
    requires mean * n == total
    ensures forall x :: Square(centre)(x) == Square(mean)(x) + a * x + b
    ensures a * total + b * n == n * ((centre - mean) * (centre - mean))
  {
    a, b := 2.0 * (mean - centre), centre * centre - mean * mean;
    MoveTotal(mean, centre, n);
    MoveSquares(mean, centre);
  }

  /** About the mean, the squares are smallest, and every other centre misses by its offset. */
  lemma SquaresAboutMean(mean: real, centre: real, s: seq<real>)
    requires mean * |s| as real == Total(s)
    ensures Squares(centre, s)
         == Squares(mean, s) + |s| as real * ((centre - mean) * (centre - mean))
  {
    var a, b := MoveCentre(mean, centre, |s| as real, Total(s));
    SumCombine(Square(centre), Square(mean), a, b, s);
  }

  /** With `mean'` the updated mean, the old squares move by `n * e²` and the new value adds its own. */
  lemma WelfordAlgebra(n: real, mean: real, value: real, mean': real)
    requires (mean' - mean) * (n + 1.0) == value - mean
    ensures mean' * (n + 1.0) == mean * n + value
    ensures n * ((mean' - mean) * (mean' - mean)) + (value - mean') * (value - mean')
         == (value - mean) * (value - mean')
  {
    var e, d2 := mean' - mean, value - mean';
    assert d2 == n * e;
    assert mean' * (n + 1.0) == mean * (n + 1.0) + e * (n + 1.0);
    assert n * (e * e) == e * d2;
    assert e * d2 + d2 * d2 == (e + d2) * d2;
  }

  lemma SumOneMore(f: real -> real, h: seq<real>, value: real)
    ensures SumOf(f, h + [value]) == SumOf(f, h) + f(value)
  {
    SumConcat(f, h, [value]);
  }

  lemma WelfordMean(h: seq<real>, mean: real, value: real, mean': real)
    requires IsMean(mean, h)
    requires (mean' - mean) * (|h| as real + 1.0) == value - mean
    ensures IsMean(mean', h + [value])
  {
    IsMeanIff(mean, h);
    IsMeanIff(mean', h + [value]);
    WelfordAlgebra(|h| as real, mean, value, mean');
    SumOneMore(Itself, h, value);
    assert |h + [value]| as real == |h| as real + 1.0;
  }

  lemma WelfordCoefficients(n: real, mean: real, value: real, mean': real, total: real)
    returns (a: real, b: real)
    requires mean * n == total
    requires (mean' - mean) * (n + 1.0) == value - mean
    ensures forall x :: Square(mean')(x) == Square(mean)(x) + a * x + b
    ensures a * total + b * n + Square(mean')(value) == (value - mean) * (value - mean')
  {
    a, b := MoveCentre(mean, mean', n, total);
    WelfordAlgebra(n, mean, value, mean');
  }

  lemma GainOf(h: seq<real>, mean: real, value: real, mean': real, a: real, b: real, gain: real)
    requires forall x :: Square(mean')(x) == Square(mean)(x) + a * x + b
    requires a * Total(h) + b * |h| as real + Square(mean')(value) == gain
    ensures Squares(mean', h + [value]) == Squares(mean, h) + gain
  {
    SumCombine(Square(mean'), Square(mean), a, b, h);
    SumOneMore(Square(mean'), h, value);
  }

  /** One online update of the squared deviations is exact. */
  lemma WelfordSquares(h: seq<real>, mean: real, value: real, mean': real)
    requires IsMean(mean, h)
    requires (mean' - mean) * (|h| as real + 1.0) == value - mean
    ensures Squares(mean', h + [value]) == Squares(mean, h) + (value - mean) * (value - mean')
  {
    IsMeanIff(mean, h);
    var a, b := WelfordCoefficients(|h| as real, mean, value, mean', Total(h));
    GainOf(h, mean, value, mean', a, b, (value - mean) * (value - mean'));
  }
}

/** The profiler's histogram and timer. */
module Profiler {
  import opened RealSums
  import opened RealMath
  import opened Sorting
  import opened Statistics

  const CAPACITY := 10000

  /** The last `CAPACITY` recorded values. */
  ghost function Window(h: seq<real>): seq<real> {
    if |h| <= CAPACITY then h else h[|h| - CAPACITY..]
  }

  ghost function Dropped(h: seq<real>): seq<real> {
    h[..|h| - |Window(h)|]
  }

  /** The float conversion of the source: towards zero. */
  function Truncate(x: real): int {
    if x >= 0.0 then x.Floor else -((-x).Floor)
  }

  function Slot(n: nat, p: real): int {
    var k := Truncate(n as real * p);
    if k >= n then n - 1 else k
  }

  lemma SlotsAreOrdered(n: nat, p: real, q: real)
    requires n > 0 && 0.0 <= p <= q
    ensures 0 <= Slot(n, p) <= Slot(n, q) < n
  {
    ProductNonNegative(n as real, p);
    ProductNonNegative(n as real, q - p);
    assert n as real * q == n as real * p + n as real * (q - p);
  }

  /** The fraction is not so negative that it leads below the first value. */
  ghost predicate HasSlot(n: nat, p: real) {
    n as real * p > -1.0
  }

  ghost predicate HasSlots(n: nat, percentiles: seq<real>) {
    forall k :: 0 <= k < 6 && k < |percentiles| ==> HasSlot(n, percentiles[k])
  }

  /** What slot `k` of a window of `n` values has to do with the fraction `p`. */
  ghost predicate IsSlot(k: int, n: nat, p: real) {
    && (p < 0.0 ==> k == 0)
    && (0.0 <= p < 1.0 ==> k as real <= n as real * p < k as real + 1.0)
    && (p >= 1.0 ==> k == n - 1)
  }

  /** What a slot is: the fraction of the length, rounded down; or one of the ends. */
  lemma SlotIs(n: nat, p: real)
    requires n > 0 && HasSlot(n, p)
    ensures 0 <= Slot(n, p) < n && IsSlot(Slot(n, p), n, p)
  {
    var x := n as real * p;
    if p < 0.0 {
      ProductPositive(n as real, -p);
      assert n as real * -p == -x;
    } else if p < 1.0 {
      ProductNonNegative(n as real, p);
      ProductPositive(n as real, 1.0 - p);
      assert n as real * (1.0 - p) == n as real - x;
    } else {
      ProductNonNegative(n as real, p - 1.0);
      assert n as real * (p - 1.0) == x - n as real;
    }
  }

  /** Fractions that are not negative index a slot of any nonempty window. */
  lemma FractionsHaveSlots(n: nat, percentiles: seq<real>)
    requires n > 0 && forall k :: 0 <= k < |percentiles| ==> percentiles[k] >= 0.0
    ensures HasSlots(n, percentiles)
  {
    forall k | 0 <= k < 6 && k < |percentiles| ensures HasSlot(n, percentiles[k]) {
      ProductNonNegative(n as real, percentiles[k]);
    }
  }

  datatype Percentiles = Percentiles(p50: real, p75: real, p90: real, p95: real, p99: real, p999: real)
  {
    function With(i: nat, v: real): Percentiles {
      match i
      case 0 => this.(p50 := v)
      case 1 => this.(p75 := v)
      case 2 => this.(p90 := v)
      case 3 => this.(p95 := v)
      case 4 => this.(p99 := v)
      case 5 => this.(p999 := v)
      case _ => this
    }

    function At(i: nat): real {
      match i
      case 0 => p50
      case 1 => p75
      case 2 => p90
      case 3 => p95
      case 4 => p99
      case 5 => p999
      case _ => 0.0
    }
  }

  const NO_PERCENTILES := Percentiles(0.0, 0.0, 0.0, 0.0, 0.0, 0.0)
  const DEFAULT_PERCENTILES := [0.5, 0.75, 0.9, 0.95, 0.99, 0.999]

  datatype HistogramData = HistogramData(
    count: nat, sum: real, min: real, max: real, mean: real, stdDev: real, percentiles: Percentiles)

  ghost predicate Unassigned(ps: Percentiles, n: nat) {
    forall k :: n <= k < 6 ==> ps.At(k) == 0.0
  }

  /** The first `n` percentiles are the values at their slots in the sorted window. */
  ghost predicate Ranked(ps: Percentiles, w: seq<real>, percentiles: seq<real>, n: nat) {
    forall k :: 0 <= k < n && k < 6 && k < |percentiles| ==> HasRank(ps.At(k), w, Slot(|w|, percentiles[k]))
  }

  ghost predicate DescribesWindow(data: HistogramData, w: seq<real>, percentiles: seq<real>) {
    if w == [] then
      data == HistogramData(data.count, data.sum, 0.0, 0.0, 0.0, 0.0, NO_PERCENTILES)
    else
      && HasRank(data.min, w, 0) && HasRank(data.max, w, |w| - 1)
      && data.mean * |w| as real == data.sum
      && data.stdDev * |w| as real == Squares(data.mean, w)
      && Ranked(data.percentiles, w, percentiles, 6)
      && Unassigned(data.percentiles, |percentiles|)
  }

  /** The first six fractions are reported as the values of the window at them. */
  ghost predicate ReportsQuantiles(ps: Percentiles, w: seq<real>, percentiles: seq<real>) {
    forall k :: 0 <= k < 6 && k < |percentiles| ==> IsQuantile(ps.At(k), w, percentiles[k])
  }

  /** What the reported numbers are, for the whole history `h` of a histogram. */
  ghost predicate Describes(data: HistogramData, h: seq<real>, percentiles: seq<real>) {
    && data.count == |h| && data.sum == Total(h)
    && DescribesWindow(data, Window(h), percentiles)
  }

  lemma SameLength(s: seq<real>, t: seq<real>)
    requires multiset(s) == multiset(t)
    ensures |s| == |t|
  {
    assert |multiset(s)| == |s| && |multiset(t)| == |t|;
  }

  lemma RanksInWindow(sorted: seq<real>, w: seq<real>, ps: Percentiles, percentiles: seq<real>)
    requires sorted != [] && Sorted(sorted) && multiset(sorted) == multiset(w)
    requires Ranked(ps, sorted, percentiles, 6)
    ensures |sorted| == |w| && Ranked(ps, w, percentiles, 6)
    ensures HasRank(sorted[0], w, 0) && HasRank(sorted[|sorted| - 1], w, |w| - 1)
  {
    SameLength(sorted, w);
    SortedHasRank(sorted, 0);
    SortedHasRank(sorted, |sorted| - 1);
    RankOfRearranged(sorted[0], sorted, w, 0);
    RankOfRearranged(sorted[|sorted| - 1], sorted, w, |w| - 1);
    forall k | 0 <= k < 6 && k < |percentiles|
      ensures HasRank(ps.At(k), w, Slot(|w|, percentiles[k]))
    {
      RankOfRearranged(ps.At(k), sorted, w, Slot(|w|, percentiles[k]));
    }
  }

  lemma WithAt(ps: Percentiles, i: nat, v: real)
    requires i < 6
    ensures ps.With(i, v).At(i) == v
    ensures forall k: nat :: k != i ==> ps.With(i, v).At(k) == ps.At(k)
  {
  }

  method PickPercentiles(values: seq<real>, percentiles: seq<real>) returns (ps: Percentiles)
    requires values != [] && Sorted(values)
    requires HasSlots(|values|, percentiles)
    ensures Ranked(ps, values, percentiles, 6) && Unassigned(ps, |percentiles|)
  {
    ps := NO_PERCENTILES;
    for i := 0 to |percentiles|
      invariant Ranked(ps, values, percentiles, i)
      invariant Unassigned(ps, i)
    {
      if i < 6 {
        var idx := Slot(|values|, percentiles[i]);
        SlotIs(|values|, percentiles[i]);
        SortedHasRank(values, idx);
        WithAt(ps, i, values[idx]);
        ps := ps.With(i, values[idx]);
      }
    }
  }

  method SortedCopy(values: seq<real>) returns (s: seq<real>)
    ensures Sorted(s) && multiset(s) == multiset(values) && |s| == |values|
  {
    var copy := new real[|values|](i requires 0 <= i < |values| => values[i]);
    assert copy[..] == values;
    QuickSort(copy, 0, |values| - 1);
    s := copy[..];
  }

  method SumSquares(values: seq<real>, mean: real) returns (variance: real)
    ensures variance == Squares(mean, values)
  {
    variance := 0.0;
    for i := 0 to |values|
      invariant variance == Squares(mean, values[..i])
    {
      var diff := values[i] - mean;
      SumOneMore(Square(mean), values[..i], values[i]);
      assert values[..i + 1] == values[..i] + [values[i]];
      variance := variance + diff * diff;
    }
    assert values[..|values|] == values;
  }

  method MeanAndSpread(sorted: seq<real>, sum: real, ghost w: seq<real>) returns (mean: real, stdDev: real)
    requires sorted != [] && multiset(sorted) == multiset(w) && |sorted| == |w|
    ensures mean * |w| as real == sum && stdDev * |w| as real == Squares(mean, w)
  {
    mean := sum / |sorted| as real;
    var variance := SumSquares(sorted, mean);
    SumPermutation(Square(mean), sorted, w);
    stdDev := variance / |sorted| as real;
    DivideBack(sum, |sorted| as real);
    DivideBack(variance, |sorted| as real);
  }

  method Summary(values: seq<real>, count: nat, sum: real, percentiles: seq<real>) returns (data: HistogramData)
    requires values != [] && HasSlots(|values|, percentiles)
    ensures data.count == count && data.sum == sum && DescribesWindow(data, values, percentiles)
  {
    var sorted := SortedCopy(values);
    var mean, stdDev := MeanAndSpread(sorted, sum, values);
    var ps := PickPercentiles(sorted, percentiles);
    RanksInWindow(sorted, values, ps, percentiles);
    data := HistogramData(count, sum, sorted[0], sorted[|sorted| - 1], mean, stdDev, ps);
  }

  lemma SlotIsQuantile(v: real, low: real, high: real, w: seq<real>, k: int, p: real)
    requires HasRank(low, w, 0) && HasRank(high, w, |w| - 1) && HasRank(v, w, k)
    requires w != [] && HasSlot(|w|, p) && k == Slot(|w|, p)
    ensures IsQuantile(v, w, p)
  {
    SlotIs(|w|, p);
    if 0.0 <= p < 1.0 {
      RankIsQuantile(v, w, k, p);
    } else {
      EndIsQuantile(v, low, high, w, k, p);
    }
  }

  lemma RanksAreQuantiles(data: HistogramData, w: seq<real>, percentiles: seq<real>)
    requires w != [] && DescribesWindow(data, w, percentiles) && HasSlots(|w|, percentiles)
    ensures ReportsQuantiles(data.percentiles, w, percentiles)
  {
    forall k | 0 <= k < 6 && k < |percentiles| ensures IsQuantile(data.percentiles.At(k), w, percentiles[k]) {
      SlotIsQuantile(data.percentiles.At(k), data.min, data.max, w, Slot(|w|, percentiles[k]), percentiles[k]);
    }
  }

  class Histogram {
    var values: seq<real>
    var count: nat
    var sum: real
    const percentiles: seq<real>
    ghost var history: seq<real>

    ghost predicate Valid() reads this {
      values == Window(history) && count == |history| && sum == Total(history)
    }

    constructor (percentiles: seq<real>)
      ensures Valid() && history == [] && this.percentiles == percentiles
    {
      values, count, sum, history := [], 0, 0.0, [];
      this.percentiles := percentiles;
    }

    method Record(value: real)
      requires Valid()
      modifies this
      ensures Valid() && history == old(history) + [value]
    {
      values := values + [value];
      count := count + 1;
      sum := sum + value;
      if |values| > 10000 {
        values := values[|values| - 10000..];
      }
      SumOneMore(Itself, history, value);
      history := history + [value];
    }

    method Data() returns (data: HistogramData)
      requires Valid() && HasSlots(|values|, percentiles)
      ensures Describes(data, history, percentiles)
      ensures history != [] ==> ReportsQuantiles(data.percentiles, Window(history), percentiles)
    {
      data := HistogramData(count, sum, 0.0, 0.0, 0.0, 0.0, NO_PERCENTILES);
      if |values| == 0 {
        return;
      }
      data := Summary(values, count, sum, percentiles);
      RanksAreQuantiles(data, Window(history), percentiles);
    }
  }

  /** Any ascending list of fractions has its slots, and reports ascending values of the window. */
  lemma PercentilesAreOrdered(data: HistogramData, h: seq<real>, percentiles: seq<real>, j: nat, k: nat)
    requires h != [] && Describes(data, h, percentiles)
    requires j <= k < 6 && k < |percentiles| && 0.0 <= percentiles[j] <= percentiles[k]
    ensures data.min <= data.percentiles.At(j) <= data.percentiles.At(k) <= data.max
    ensures data.percentiles.At(j) in Window(h)
  {
    var w := Window(h);
    var u, v := data.percentiles.At(j), data.percentiles.At(k);
    var a, b := Slot(|w|, percentiles[j]), Slot(|w|, percentiles[k]);
    SlotsAreOrdered(|w|, percentiles[j], percentiles[k]);
    RanksAreOrdered(data.min, u, w, 0, a);
    RanksAreOrdered(u, v, w, a, b);
    RanksAreOrdered(v, data.max, w, b, |w| - 1);
    RankedIsPresent(u, w, a);
  }

  /** Minimum and maximum are recorded values of the window that bound the window. */
  lemma ExtremesOfWindow(data: HistogramData, h: seq<real>, percentiles: seq<real>)
    requires h != [] && Describes(data, h, percentiles)
    ensures data.min in Window(h) && data.max in Window(h)
    ensures forall x :: x in Window(h) ==> data.min <= x <= data.max
  {
    var w := Window(h);
    RankedIsPresent(data.min, w, 0);
    RankedIsPresent(data.max, w, |w| - 1);
    forall x | x in w ensures data.min <= x <= data.max {
      RankWithin(x, w, data.min, data.max);
    }
  }

  /** The six default percentiles come out in order. */
  lemma DefaultReport(data: HistogramData, h: seq<real>)
    requires h != [] && Describes(data, h, DEFAULT_PERCENTILES)
    ensures var p := data.percentiles;
            data.min <= p.p50 <= p.p75 <= p.p90 <= p.p95 <= p.p99 <= p.p999 <= data.max
    ensures var p := data.percentiles; var w := Window(h);
            p.p50 in w && p.p75 in w && p.p90 in w && p.p95 in w && p.p99 in w && p.p999 in w
    ensures var p := data.percentiles; var w := Window(h);
            && IsQuantile(p.p50, w, 0.5) && IsQuantile(p.p75, w, 0.75) && IsQuantile(p.p90, w, 0.9)
            && IsQuantile(p.p95, w, 0.95) && IsQuantile(p.p99, w, 0.99) && IsQuantile(p.p999, w, 0.999)
  {
    FractionsHaveSlots(|Window(h)|, DEFAULT_PERCENTILES);
    RanksAreQuantiles(data, Window(h), DEFAULT_PERCENTILES);
    forall k: nat | k < 6
      ensures data.percentiles.At(k) in Window(h)
      ensures data.min <= data.percentiles.At(k) <= data.max
      ensures k > 0 ==> data.percentiles.At(k - 1) <= data.percentiles.At(k)
    {
      PercentilesAreOrdered(data, h, DEFAULT_PERCENTILES, k, k);
      if k > 0 {
        PercentilesAreOrdered(data, h, DEFAULT_PERCENTILES, k - 1, k);
      }
    }
    var p := data.percentiles;
    assert p.At(0) == p.p50 && p.At(1) == p.p75 && p.At(2) == p.p90;
    assert p.At(3) == p.p95 && p.At(4) == p.p99 && p.At(5) == p.p999;
  }

  lemma WindowSplitsTotal(h: seq<real>)
    ensures Total(h) == Total(Dropped(h)) + Total(Window(h))
  {
    var k := |h| - |Window(h)|;
    assert h[k..] == Window(h);
    SumSplit(Itself, h, k);
  }

  lemma MeanMissesBy(mean: real, h: seq<real>)
    requires mean * |Window(h)| as real == Total(h)
    ensures mean * |Window(h)| as real == Total(Window(h)) <==> Total(Dropped(h)) == 0.0
  {
    WindowSplitsTotal(h);
  }

  /** The reported mean divides the all-time sum by the window's size. It is the window's mean
      exactly when what has left the window adds up to nothing. */
  lemma MeanIsWindowMeanIff(data: HistogramData, h: seq<real>, percentiles: seq<real>)
    requires h != [] && Describes(data, h, percentiles)
    ensures data.mean * |Window(h)| as real == Total(Window(h)) <==> Total(Dropped(h)) == 0.0
  {
    MeanMissesBy(data.mean, h);
  }

  lemma MeanIsOff(reported: real, mean: real, off: real, n: real, kept: real, dropped: real)
    requires n > 0.0 && reported * n == dropped + kept && mean * n == kept && off * n == dropped
    ensures reported == mean + off
  {
    assert (mean + off) * n == mean * n + off * n;
    SameQuotient(reported, mean + off, n);
  }

  /** The reported mean misses the window's mean by what was dropped, per value of the window; the
      reported spread is the window's variance plus the square of that. */
  lemma SpreadOfWindow(data: HistogramData, h: seq<real>, percentiles: seq<real>, mean: real, off: real)
    requires h != [] && Describes(data, h, percentiles)
    requires mean * |Window(h)| as real == Total(Window(h)) && off * |Window(h)| as real == Total(Dropped(h))
    ensures data.mean == mean + off
    ensures data.stdDev * |Window(h)| as real == Squares(mean, Window(h)) + |Window(h)| as real * (off * off)
  {
    var n := |Window(h)| as real;
    WindowSplitsTotal(h);
    MeanIsOff(data.mean, mean, off, n, Total(Window(h)), Total(Dropped(h)));
    SquaresAboutMean(mean, mean + off, Window(h));
  }

  lemma ZeroQuotientIff(a: real, n: real)
    requires n > 0.0
    ensures a * n == 0.0 <==> a == 0.0
  {
    if a * n == 0.0 {
      SameQuotient(a, 0.0, n);
    }
  }

  lemma OffsetSign(n: real, d: real)
    requires n > 0.0
    ensures n * (d * d) >= 0.0
    ensures n * (d * d) == 0.0 <==> d == 0.0
  {
    if d > 0.0 {
      ProductPositive(n, d);
      ProductPositive(n * d, d);
    } else if d < 0.0 {
      ProductPositive(n, -d);
      ProductPositive(n * -d, -d);
    }
    assert n * -d * -d == n * (d * d);
    assert n * d * d == n * (d * d);
  }

  /** The reported spread is the window's variance if and only if the dropped values sum to zero. */
  lemma SpreadIsVarianceIff(data: HistogramData, h: seq<real>, percentiles: seq<real>, mean: real)
    requires h != [] && Describes(data, h, percentiles)
    requires mean * |Window(h)| as real == Total(Window(h))
    ensures data.stdDev * |Window(h)| as real >= Squares(mean, Window(h))
    ensures data.stdDev * |Window(h)| as real == Squares(mean, Window(h)) <==> Total(Dropped(h)) == 0.0
  {
    var n := |Window(h)| as real;
    var off := Total(Dropped(h)) / n;
    DivideBack(Total(Dropped(h)), n);
    SpreadOfWindow(data, h, percentiles, mean, off);
    OffsetSign(n, off);
    ZeroQuotientIff(off, n);
  }

  lemma AddSquares(spread: real, a: real, b: real, n: real, squares: real)
    requires n > 0.0 && spread * n == squares + n * b && a * n == squares
    ensures spread == a + b
  {
    assert (a + b) * n == a * n + n * b;
    SameQuotient(spread, a + b, n);
  }

  lemma NothingOff(off: real, n: real)
    requires n > 0.0
    ensures off * n == 0.0 ==> off * off == 0.0
  {
    ZeroQuotientIff(off, n);
  }

  lemma OwnSquareIff(sd: real)
    ensures sd * sd == sd <==> sd == 0.0 || sd == 1.0
  {
    if sd != 0.0 && sd != 1.0 {
      ProductNonzero(sd, sd - 1.0);
    }
    assert sd * (sd - 1.0) == sd * sd - sd;
  }

  /** The reported spread is the standard deviation `sd` of the window only where the two happen to
      meet; as long as nothing has been dropped, that means a deviation of zero or one. */
  lemma SpreadIsDeviationIff(data: HistogramData, h: seq<real>, percentiles: seq<real>, mean: real, off: real, sd: real)
    requires h != [] && Describes(data, h, percentiles)
    requires mean * |Window(h)| as real == Total(Window(h)) && off * |Window(h)| as real == Total(Dropped(h))
    requires sd >= 0.0 && sd * sd * |Window(h)| as real == Squares(mean, Window(h))
    ensures data.stdDev == sd * sd + off * off
    ensures data.stdDev == sd <==> sd * sd + off * off == sd
    ensures Dropped(h) == [] ==> (data.stdDev == sd <==> sd == 0.0 || sd == 1.0)
  {
    var n := |Window(h)| as real;
    SpreadOfWindow(data, h, percentiles, mean, off);
    AddSquares(data.stdDev, sd * sd, off * off, n, Squares(mean, Window(h)));
    OwnSquareIff(sd);
    NothingOff(off, n);
  }

  /** `low` is the least of `start` and the values of `h`. */
  ghost predicate IsLeast(low: real, start: real, h: seq<real>) {
    low <= start && (forall i :: 0 <= i < |h| ==> low <= h[i]) && (low == start || low in h)
  }

  ghost predicate IsGreatest(high: real, start: real, h: seq<real>) {
    start <= high && (forall i :: 0 <= i < |h| ==> h[i] <= high) && (high == start || high in h)
  }

  const START_MIN := 9223372036854775808.0
  const START_MAX := -1.0

  datatype TimerData = TimerData(count: nat, sum: real, min: real, max: real, mean: real, stdDev: real)

  /** The state of a timer that has recorded exactly `h`. */
  ghost predicate Measures(count: nat, sum: real, mean: real, m2: real, h: seq<real>) {
    && count == |h| && sum == Total(h)
    && IsMean(mean, h) && m2 == Squares(mean, h)
    && (h == [] ==> mean == 0.0)
  }

  /** What a timer reports about the values `h`. */
  ghost predicate ReportsTimer(data: TimerData, h: seq<real>) {
    && data.count == |h| && data.sum == Total(h)
    && data.mean * |h| as real == Total(h)
    && (if |h| > 1 then data.stdDev * (|h| - 1) as real == Squares(data.mean, h) else data.stdDev == 0.0)
    && IsLeast(data.min, START_MIN, h) && IsGreatest(data.max, START_MAX, h)
  }

  method NextMean(count: nat, mean: real, value: real, ghost h: seq<real>) returns (mean': real)
    requires count == |h| + 1 && IsMean(mean, h)
    ensures (mean' - mean) * (|h| as real + 1.0) == value - mean
    ensures IsMean(mean', h + [value])
  {
    mean' := mean + (value - mean) / count as real;
    DivideBack(value - mean, count as real);
    WelfordMean(h, mean, value, mean');
  }

  /** One online update, with `count` already stepped. */
  method WelfordUpdate(count: nat, mean: real, m2: real, value: real, ghost sum: real, ghost h: seq<real>)
    returns (mean': real, m2': real)
    requires count > 0 && Measures(count - 1, sum, mean, m2, h)
    ensures Measures(count, sum + value, mean', m2', h + [value])
  {
    var delta := value - mean;
    mean' := NextMean(count, mean, value, h);
    var delta2 := value - mean';
    m2' := m2 + delta * delta2;
    WelfordSquares(h, mean, value, mean');
    SumOneMore(Itself, h, value);
  }

  lemma ExtremesGrow(low: real, high: real, h: seq<real>, value: real)
    requires IsLeast(low, START_MIN, h) && IsGreatest(high, START_MAX, h)
    ensures IsLeast(if value < low then value else low, START_MIN, h + [value])
    ensures IsGreatest(if value > high then value else high, START_MAX, h + [value])
  {
    var t := h + [value];
    assert t[|h|] == value;
    assert forall i :: 0 <= i < |h| ==> t[i] == h[i];
  }

  class Timer {
    var count: nat
    var sum: real
    var min: real
    var max: real
    var mean: real
    var m2: real
    ghost var history: seq<real>

    ghost predicate Valid() reads this {
      && Measures(count, sum, mean, m2, history)
      && IsLeast(min, START_MIN, history) && IsGreatest(max, START_MAX, history)
    }

    constructor ()
      ensures Valid() && history == []
    {
      count, sum, mean, m2 := 0, 0.0, 0.0, 0.0;
      min, max := START_MIN, START_MAX;
      history := [];
    }

    method Record(value: real)
      requires Valid()
      modifies this
      ensures Valid() && history == old(history) + [value]
    {
      count := count + 1;
      sum := sum + value;
      if value < min {
        min := value;
      }
      if value > max {
        max := value;
      }
      mean, m2 := WelfordUpdate(count, mean, m2, value, old(sum), history);
      ExtremesGrow(old(min), old(max), history, value);
      history := history + [value];
    }

    /** The reported mean and spread are those of the textbook two-pass formulas. */
    method Data() returns (data: TimerData)
      requires Valid()
      ensures ReportsTimer(data, history)
    {
      IsMeanIff(mean, history);
      data := TimerData(count, sum, min, max, mean, 0.0);
      if count > 1 {
        DivideBack(m2, (count - 1) as real);
        data := data.(stdDev := m2 / (count - 1) as real);
      }
    }
  }

  /** The extremes start at fixed bounds, so they are recorded values exactly when some value
      reaches the bound. */
  lemma TimerExtremesIff(low: real, high: real, h: seq<real>)
    requires IsLeast(low, START_MIN, h) && IsGreatest(high, START_MAX, h)
    ensures low in h <==> exists i :: 0 <= i < |h| && h[i] <= START_MIN
    ensures high in h <==> exists i :: 0 <= i < |h| && h[i] >= START_MAX
  {
  }

  /** The reported spread is the sample variance. It is the sample standard deviation `sd` if and
      only if that is zero or one. */
  lemma TimerSpreadIsDeviationIff(data: TimerData, h: seq<real>, sd: real)
    requires |h| > 1 && ReportsTimer(data, h)
    requires sd >= 0.0 && sd * sd * (|h| - 1) as real == Squares(data.mean, h)
    ensures data.stdDev == sd * sd
    ensures data.stdDev == sd <==> sd == 0.0 || sd == 1.0
  {
    SameQuotient(data.stdDev, sd * sd, (|h| - 1) as real);
    OwnSquareIff(sd);
  }

  // ----- inputs on which the reports mislead -----

  ghost predicate AreOnes(h: seq<real>, n: int) {
    |h| == n && forall i :: 0 <= i < |h| ==> h[i] == 1.0
  }

  lemma OnesMean(mean: real)
    ensures mean * 10000.0 == 10001.0 ==> mean == 1.0001
  {
  }

  lemma OnesReport(data: HistogramData, h: seq<real>, percentiles: seq<real>)
    requires Describes(data, h, percentiles) && AreOnes(h, 10001)
    ensures data.count == 10001 && data.min == data.max == 1.0 && data.mean == 1.0001
  {
    ExtremesOfWindow(data, h, percentiles);
    SumBetween(Itself, 1.0, 1.0, h);
    OnesMean(data.mean);
  }

  /** Ten thousand and one ones: the reported mean lies above every recorded value. */
  method HistogramOfOnes() returns (data: HistogramData)
    ensures data.count == 10001 && data.min == data.max == 1.0 && data.mean == 1.0001
  {
    var hist := new Histogram(DEFAULT_PERCENTILES);
    for i := 0 to 10001
      invariant hist.Valid() && fresh(hist) && hist.percentiles == DEFAULT_PERCENTILES
      invariant AreOnes(hist.history, i)
    {
      hist.Record(1.0);
    }
    FractionsHaveSlots(|hist.values|, DEFAULT_PERCENTILES);
    data := hist.Data();
    OnesReport(data, hist.history, DEFAULT_PERCENTILES);
  }

  lemma TwoReport(data: HistogramData, percentiles: seq<real>)
    requires Describes(data, [0.0, 4.0], percentiles)
    ensures data.mean == 2.0 && data.stdDev == 4.0
  {
    var h := [0.0, 4.0];
    assert h[1..] == [4.0];
    assert Total(h) == 4.0;
    assert Squares(2.0, h) == 8.0;
  }

  /** Two values, 0 and 4: their standard deviation is 2, and 4 is reported. */
  method HistogramOfTwo() returns (data: HistogramData)
    ensures data.mean == 2.0 && data.stdDev == 4.0
  {
    var hist := new Histogram(DEFAULT_PERCENTILES);
    hist.Record(0.0);
    hist.Record(4.0);
    FractionsHaveSlots(|hist.values|, DEFAULT_PERCENTILES);
    data := hist.Data();
    assert hist.history == [0.0, 4.0];
    TwoReport(data, DEFAULT_PERCENTILES);
  }

  /** A timer that recorded only -2 reports the maximum -1. */
  method TimerBelowBound() returns (data: TimerData)
    ensures data.min == -2.0 && data.max == -1.0
  {
    var timer := new Timer();
    timer.Record(-2.0);
    data := timer.Data();
    assert timer.history == [-2.0];
  }

  lemma ThreeReport(data: TimerData)
    requires ReportsTimer(data, [-2.0, 0.0, 2.0])
    ensures data.mean == 0.0 && data.stdDev == 4.0
  {
    var h := [-2.0, 0.0, 2.0];
    assert h[1..] == [0.0, 2.0] && h[1..][1..] == [2.0];
    assert Total(h) == 0.0;
    assert Squares(0.0, h) == 8.0;
  }

  /** A timer that recorded -2, 0 and 2 has the sample deviation 2, and reports 4. */
  method TimerOfThree() returns (data: TimerData)
    ensures data.mean == 0.0 && data.stdDev == 4.0
  {
    var timer := new Timer();
    timer.Record(-2.0);
    timer.Record(0.0);
    timer.Record(2.0);
    data := timer.Data();
    assert timer.history == [-2.0, 0.0, 2.0];
    ThreeReport(data);
  }

  lemma MeanIsUnique(a: real, b: real, s: seq<real>)
    requires s != [] && IsMean(a, s) && IsMean(b, s)
    ensures a == b
  {
    IsMeanIff(a, s);
    IsMeanIff(b, s);
    SameQuotient(a, b, |s| as real);
  }

  /** Two timers that recorded the same values in any order agree on mean and spread. */
  lemma TimerForgetsOrder(c: nat, s: real, m: real, q: real, h: seq<real>,
                          c': nat, s': real, m': real, q': real, h': seq<real>)
    requires Measures(c, s, m, q, h) && Measures(c', s', m', q', h')
    requires multiset(h) == multiset(h')
    ensures c == c' && s == s' && m == m' && q == q'
  {
    SameLength(h, h');
    SumPermutation(Itself, h, h');
    SumPermutation(Deviation(m), h, h');
    SumPermutation(Square(m), h, h');
    if h != [] {
      MeanIsUnique(m, m', h');
    }
  }
}
