/** Drawdown segmentation of an equity curve. */
module DrawdownPeriods {

  datatype EquityPoint = EquityPoint(timestamp: int, equity: real)

  datatype DrawdownPeriod = DrawdownPeriod(
    startTime: int, endTime: int, peak: real, trough: real, drawdown: real, duration: int)

  /** Point `a` is a running maximum, everything strictly between `a` and `b` (and there is
      something) lies below it, and `b` is the first point to reach it again. */
  ghost predicate IsDrawdown(e: seq<EquityPoint>, a: int, b: int) {
    && 0 <= a && a + 2 <= b < |e|
    && (forall k :: 0 <= k < a ==> e[k].equity <= e[a].equity)
    && (forall k :: a < k < b ==> e[k].equity < e[a].equity)
    && e[b].equity >= e[a].equity
  }

  /** What is reported about a drawdown. */
  ghost function PeriodOf(e: seq<EquityPoint>, a: int, b: int): DrawdownPeriod
    requires IsDrawdown(e, a, b)
  {
    DrawdownPeriod(e[a].timestamp, e[b].timestamp, e[a].equity, e[b].equity, 0.0,
                   e[b].timestamp - e[a].timestamp)
  }

  /** The drawdowns that end before point `n`, in order and without overlap. */
  ghost predicate IsSegmentation(e: seq<EquityPoint>, n: int, pairs: seq<(int, int)>) {
    && (forall k :: 0 <= k < |pairs| ==> IsDrawdown(e, pairs[k].0, pairs[k].1) && pairs[k].1 < n)
    && (forall a, b :: IsDrawdown(e, a, b) && b < n ==> (a, b) in pairs)
    && (forall k, l :: 0 <= k < l < |pairs| ==> pairs[k].1 <= pairs[l].0)
  }

  ghost predicate Reports(e: seq<EquityPoint>, pairs: seq<(int, int)>, periods: seq<DrawdownPeriod>) {
    && |periods| == |pairs|
    && forall k :: 0 <= k < |pairs| ==>
         IsDrawdown(e, pairs[k].0, pairs[k].1) && periods[k] == PeriodOf(e, pairs[k].0, pairs[k].1)
  }

  /** The periods of exactly the recovered drawdowns of the whole curve. */
  ghost predicate IsReport(e: seq<EquityPoint>, periods: seq<DrawdownPeriod>) {
    exists pairs :: IsSegmentation(e, |e|, pairs) && Reports(e, pairs, periods)
  }

  lemma LastSegmentIsLast(e: seq<EquityPoint>, n: int, p: seq<(int, int)>, q: seq<(int, int)>)
    requires IsSegmentation(e, n, p) && IsSegmentation(e, n, q) && p != [] && q != []
    ensures q[|q| - 1].1 <= p[|p| - 1].1
    ensures IsDrawdown(e, q[|q| - 1].0, q[|q| - 1].1)
  {
    var b := q[|q| - 1];
    assert IsDrawdown(e, b.0, b.1);
    assert (b.0, b.1) in p;
    var k :| 0 <= k < |p| && p[k] == b;
    var last := p[|p| - 1];
    assert IsDrawdown(e, last.0, last.1);
  }

  lemma DrawdownHasOneStart(e: seq<EquityPoint>, a: int, a': int, b: int)
    requires IsDrawdown(e, a, b)
    ensures IsDrawdown(e, a', b) ==> a' == a
  {
  }

  lemma SameLastSegment(e: seq<EquityPoint>, n: int, p: seq<(int, int)>, q: seq<(int, int)>)
    requires IsSegmentation(e, n, p) && IsSegmentation(e, n, q) && p != [] && q != []
    ensures p[|p| - 1] == q[|q| - 1]
  {
    LastSegmentIsLast(e, n, p, q);
    LastSegmentIsLast(e, n, q, p);
    DrawdownHasOneStart(e, p[|p| - 1].0, q[|q| - 1].0, p[|p| - 1].1);
  }

  lemma EmptySegmentation(e: seq<EquityPoint>, n: int, p: seq<(int, int)>, q: seq<(int, int)>)
    requires IsSegmentation(e, n, p) && IsSegmentation(e, n, q)
    ensures p == [] ==> q == []
  {
    if q != [] {
      assert IsDrawdown(e, q[0].0, q[0].1);
      assert (q[0].0, q[0].1) in p;
    }
  }

  lemma DropLastSegment(e: seq<EquityPoint>, n: int, p: seq<(int, int)>)
    requires p != [] && IsSegmentation(e, n, p)
    ensures IsSegmentation(e, p[|p| - 1].1, p[..|p| - 1])
  {
    var last := |p| - 1;
    forall k | 0 <= k < last ensures p[k].1 < p[last].1 {
      assert p[k].1 <= p[last].0 && IsDrawdown(e, p[last].0, p[last].1);
    }
    forall a, b | IsDrawdown(e, a, b) && b < p[last].1 ensures (a, b) in p[..last] {
      assert (a, b) in p;
    }
  }

  lemma {:induction false} SegmentationIsUnique(e: seq<EquityPoint>, n: int, p: seq<(int, int)>, q: seq<(int, int)>)
    requires IsSegmentation(e, n, p) && IsSegmentation(e, n, q)
    ensures p == q
    decreases |p|
  {
    if p == [] || q == [] {
      EmptySegmentation(e, n, p, q);
      EmptySegmentation(e, n, q, p);
    } else {
      SameLastSegment(e, n, p, q);
      DropLastSegment(e, n, p);
      DropLastSegment(e, n, q);
      SegmentationIsUnique(e, p[|p| - 1].1, p[..|p| - 1], q[..|q| - 1]);
      assert p == p[..|p| - 1] + [p[|p| - 1]];
      assert q == q[..|q| - 1] + [q[|q| - 1]];
    }
  }

  /** A curve has one report. */
  lemma ReportIsUnique(e: seq<EquityPoint>, s: seq<DrawdownPeriod>, t: seq<DrawdownPeriod>)
    requires IsReport(e, s) && IsReport(e, t)
    ensures s == t
  {
    var p :| IsSegmentation(e, |e|, p) && Reports(e, p, s);
    var q :| IsSegmentation(e, |e|, q) && Reports(e, q, t);
    SegmentationIsUnique(e, |e|, p, q);
  }

  /** Point `p` carries the peak of the first `i` points, and nothing after it reaches it. */
  ghost predicate IsPeak(e: seq<EquityPoint>, i: int, p: int) {
    && 0 <= p < i <= |e|
    && (forall k :: 0 <= k < p ==> e[k].equity <= e[p].equity)
    && (forall k :: p < k < i ==> e[k].equity < e[p].equity)
  }

  /** A drawdown can only end at a point that reaches the peak, and only start at that peak. */
  lemma DrawdownEndsAtPeak(e: seq<EquityPoint>, i: int, p: int, a: int)
    requires IsPeak(e, i, p) && i < |e|
    ensures IsDrawdown(e, a, i) <==> a == p && p <= i - 2 && e[i].equity >= e[p].equity
  {
    if IsDrawdown(e, a, i) && a != p {
      assert false;
    }
  }

  lemma NothingToReport(e: seq<EquityPoint>)
    requires |e| < 2
    ensures IsReport(e, [])
  {
    assert IsSegmentation(e, |e|, []);
  }

  ghost predicate ScanInv(e: seq<EquityPoint>, i: int, p: int, pairs: seq<(int, int)>, periods: seq<DrawdownPeriod>) {
    && IsPeak(e, i, p)
    && IsSegmentation(e, i, pairs)
    && Reports(e, pairs, periods)
    && (forall k :: 0 <= k < |pairs| ==> pairs[k].1 <= p)
  }

  /** The first `i` points have been scanned, and point `p` carries their peak. */
  ghost predicate Scanned(e: seq<EquityPoint>, i: int, p: int, periods: seq<DrawdownPeriod>) {
    0 <= p < i <= |e| && exists pairs :: ScanInv(e, i, p, pairs, periods)
  }

  lemma ScanStart(e: seq<EquityPoint>)
    requires e != []
    ensures Scanned(e, 1, 0, [])
  {
    assert ScanInv(e, 1, 0, [], []);
  }

  lemma ScanEnd(e: seq<EquityPoint>, p: int, periods: seq<DrawdownPeriod>)
    requires Scanned(e, |e|, p, periods)
    ensures IsReport(e, periods)
  {
    var pairs :| ScanInv(e, |e|, p, pairs, periods);
  }

  lemma NextSegment(e: seq<EquityPoint>, i: int, p: int, pairs0: seq<(int, int)>, pairs: seq<(int, int)>)
    requires IsPeak(e, i, p) && i < |e| && IsSegmentation(e, i, pairs0)
    requires forall k :: 0 <= k < |pairs0| ==> pairs0[k].1 <= p
    requires pairs == pairs0 + (if p <= i - 2 && e[i].equity >= e[p].equity then [(p, i)] else [])
    ensures IsSegmentation(e, i + 1, pairs)
  {
    forall a, b | IsDrawdown(e, a, b) && b < i + 1
      ensures (a, b) in pairs
    {
      if b == i {
        DrawdownEndsAtPeak(e, i, p, a);
        assert pairs[|pairs0|] == (p, i);
      } else {
        assert (a, b) in pairs0;
      }
    }
    DrawdownEndsAtPeak(e, i, p, p);
  }

  lemma ScanStepOf(e: seq<EquityPoint>, i: int, p: int, pairs: seq<(int, int)>, periods: seq<DrawdownPeriod>)
    requires ScanInv(e, i, p, pairs, periods) && i < |e|
    ensures e[i].equity < e[p].equity ==> ScanInv(e, i + 1, p, pairs, periods)
    ensures e[i].equity >= e[p].equity && p == i - 1 ==> ScanInv(e, i + 1, i, pairs, periods)
    ensures e[i].equity >= e[p].equity && p < i - 1 ==>
      IsDrawdown(e, p, i) && ScanInv(e, i + 1, i, pairs + [(p, i)], periods + [PeriodOf(e, p, i)])
  {
    DrawdownEndsAtPeak(e, i, p, p);
    NextSegment(e, i, p, pairs, pairs + (if p <= i - 2 && e[i].equity >= e[p].equity then [(p, i)] else []));
    assert pairs + [] == pairs;
  }

  /** One more point: either it reaches the peak, and closes the drawdown if there is one, or not. */
  lemma ScanStep(e: seq<EquityPoint>, i: int, p: int, periods: seq<DrawdownPeriod>)
    requires Scanned(e, i, p, periods) && i < |e|
    ensures e[i].equity < e[p].equity ==> Scanned(e, i + 1, p, periods)
    ensures e[i].equity >= e[p].equity && p == i - 1 ==> Scanned(e, i + 1, i, periods)
    ensures e[i].equity >= e[p].equity && p < i - 1 ==>
      IsDrawdown(e, p, i) && Scanned(e, i + 1, i, periods + [PeriodOf(e, p, i)])
  {
    var pairs :| ScanInv(e, i, p, pairs, periods);
    ScanStepOf(e, i, p, pairs, periods);
  }

  class PerformanceAnalyzer {
    var equityCurve: seq<EquityPoint>

    constructor ()
      ensures equityCurve == []
    {
      equityCurve := [];
    }

    method AddEquityPoint(point: EquityPoint)
      modifies this
      ensures equityCurve == old(equityCurve) + [point]
    {
      equityCurve := equityCurve + [point];
    }

    /** Returns exactly the recovered drawdowns of the curve, in order. */
    method CalculateDrawdownPeriods() returns (periods: seq<DrawdownPeriod>)
      ensures IsReport(equityCurve, periods)
    {
      ghost var e := equityCurve;
      periods := [];
      if |equityCurve| < 2 {
        NothingToReport(e);
        return;
      }
      var peak := equityCurve[0].equity;
      var peakTime := equityCurve[0].timestamp;
      var inDrawdown := false;
      var startTime := equityCurve[0].timestamp;
      var startEquity := equityCurve[0].equity;
      ghost var p := 0;
      ScanStart(e);
      var i := 1;
      while i < |equityCurve|
        invariant 1 <= i <= |e| && Scanned(e, i, p, periods)
        invariant peak == e[p].equity && peakTime == e[p].timestamp
        invariant inDrawdown <==> p < i - 1
        invariant inDrawdown ==> startTime == peakTime && startEquity == peak
      {
        var point := equityCurve[i];
        ScanStep(e, i, p, periods);
        if point.equity >= peak {
          if inDrawdown {
            var drawdown := peak - startEquity;
            var duration := point.timestamp - startTime;
            periods := periods
              + [DrawdownPeriod(startTime, point.timestamp, peak, point.equity, drawdown, duration)];
            inDrawdown := false;
          }
          peak := point.equity;
          peakTime := point.timestamp;
          p := i;
        } else {
          if !inDrawdown {
            startTime := peakTime;
            startEquity := peak;
            inDrawdown := true;
          }
        }
        i := i + 1;
      }
      ScanEnd(e, p, periods);
    }
  }

  /** The reported depth is always zero, and that is never the real depth. */
  lemma DepthIsNeverReported(e: seq<EquityPoint>, a: int, b: int)
    requires IsDrawdown(e, a, b)
    ensures forall k :: a < k < b ==> PeriodOf(e, a, b).drawdown < e[a].equity - e[k].equity
    ensures PeriodOf(e, a, b).trough >= PeriodOf(e, a, b).peak
  {
  }

  lemma FallIsReported(periods: seq<DrawdownPeriod>)
    requires IsReport([EquityPoint(0, 10.0), EquityPoint(1, 5.0), EquityPoint(2, 10.0)], periods)
    ensures periods == [DrawdownPeriod(0, 2, 10.0, 10.0, 0.0, 2)]
  {
    var e := [EquityPoint(0, 10.0), EquityPoint(1, 5.0), EquityPoint(2, 10.0)];
    assert IsDrawdown(e, 0, 2);
    DepthIsNeverReported(e, 0, 2);
    assert IsSegmentation(e, |e|, [(0, 2)]) && Reports(e, [(0, 2)], [PeriodOf(e, 0, 2)]);
    ReportIsUnique(e, periods, [PeriodOf(e, 0, 2)]);
  }

  /** One curve that falls by five and recovers: the report has no depth, and the recovery as its trough. */
  method FallByFive() returns (periods: seq<DrawdownPeriod>)
    ensures periods == [DrawdownPeriod(0, 2, 10.0, 10.0, 0.0, 2)]
  {
    var analyzer := new PerformanceAnalyzer();
    analyzer.AddEquityPoint(EquityPoint(0, 10.0));
    analyzer.AddEquityPoint(EquityPoint(1, 5.0));
    analyzer.AddEquityPoint(EquityPoint(2, 10.0));
    periods := analyzer.CalculateDrawdownPeriods();
    assert analyzer.equityCurve == [EquityPoint(0, 10.0), EquityPoint(1, 5.0), EquityPoint(2, 10.0)];
    FallIsReported(periods);
  }
}
