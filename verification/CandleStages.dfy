/** Aggregating candles in two stages: what a coarse aggregator makes of a finer one's candles. */
module CandleStages {
  import opened RealSums
  import opened CandleAggregation

  ghost predicate TimeOrdered(h: seq<Candle>) {
    forall i, j :: 0 <= i < j < |h| ==> h[i].time <= h[j].time
  }

  ghost predicate Increasing(s: seq<Candle>) {
    forall i, j :: 0 <= i < j < |s| ==> s[i].time < s[j].time
  }

  /** The finished candles of one stage, in increasing bucket order, as a second stage is fed. */
  ghost predicate Lists(s: seq<Candle>, m: map<int, Candle>, key: int -> int) {
    && Increasing(s)
    && (forall i :: 0 <= i < |s| ==> key(s[i].time) in m && m[key(s[i].time)] == s[i])
    && (forall k :: k in m ==> m[k] in s)
  }

  ghost predicate StartsAt(s: seq<Candle>, t: int, j: int) {
    0 <= j < |s| && s[j].time == t
  }

  ghost predicate HasStart(s: seq<Candle>, t: int) {
    exists j :: StartsAt(s, t, j)
  }

  ghost predicate Covers(s: seq<Candle>, h: seq<Candle>, f: int -> int) {
    forall i :: 0 <= i < |h| ==> HasStart(s, f(h[i].time))
  }

  /** `s` summarises `h` by the buckets of `f`, one candle a bucket, in order. */
  ghost predicate IsStage(s: seq<Candle>, h: seq<Candle>, f: int -> int) {
    && Increasing(s)
    && (forall j :: 0 <= j < |s| ==> Summarises(s[j], h, f))
    && Covers(s, h, f)
  }

  lemma ListedIsStage(s: seq<Candle>, m: map<int, Candle>, h: seq<Candle>, f: int -> int, key: int -> int,
                      timeframe: string)
    requires IsBucketing(f, key) && Aggregates(m, h, f, key, timeframe) && Lists(s, m, key)
    ensures IsStage(s, h, f)
  {
    forall i | 0 <= i < |h| ensures HasStart(s, f(h[i].time)) {
      var k := key(f(h[i].time));
      assert IsEntry(k, m[k], h, f, key, timeframe) && f(f(h[i].time)) == f(h[i].time);
      KeyNamesTime(f, key, m[k].time, f(h[i].time));
      var j :| 0 <= j < |s| && s[j] == m[k];
      assert StartsAt(s, f(h[i].time), j);
    }
    forall j | 0 <= j < |s| ensures Summarises(s[j], h, f) {
      assert IsEntry(key(s[j].time), m[key(s[j].time)], h, f, key, timeframe);
    }
  }

  /** The stage's candle for the fine bucket of `h[i]`. */
  lemma StageOf(s: seq<Candle>, h: seq<Candle>, f: int -> int, g: int -> int, t: int, i: int) returns (j: int)
    requires Covers(s, h, f) && Refines(f, g) && InBucket(h, g, t, i)
    ensures InBucket(s, g, t, j) && InBucket(h, f, s[j].time, i)
  {
    assert HasStart(s, f(h[i].time));
    j :| StartsAt(s, f(h[i].time), j);
    assert g(f(h[i].time)) == g(h[i].time);
  }

  /** A candle in a fine bucket is in the coarse bucket of that bucket. */
  lemma CoarseToo(s: seq<Candle>, h: seq<Candle>, f: int -> int, g: int -> int, t: int, j: int, i: int)
    requires Refines(f, g) && InBucket(s, g, t, j) && InBucket(h, f, s[j].time, i)
    ensures InBucket(h, g, t, i)
  {
    assert g(f(h[i].time)) == g(h[i].time);
  }

  lemma HighestThroughStage(x: real, s: seq<Candle>, h: seq<Candle>, f: int -> int, g: int -> int, t: int)
    requires IsStage(s, h, f) && Refines(f, g) && IsHighest(x, s, g, t)
    ensures IsHighest(x, h, g, t)
  {
    forall i | InBucket(h, g, t, i) ensures h[i].high <= x {
      var j := StageOf(s, h, f, g, t, i);
      assert Summarises(s[j], h, f);
    }
    var j :| InBucket(s, g, t, j) && s[j].high == x;
    assert Summarises(s[j], h, f);
    var i :| InBucket(h, f, s[j].time, i) && h[i].high == x;
    CoarseToo(s, h, f, g, t, j, i);
  }

  lemma LowestThroughStage(x: real, s: seq<Candle>, h: seq<Candle>, f: int -> int, g: int -> int, t: int)
    requires IsStage(s, h, f) && Refines(f, g) && IsLowest(x, s, g, t)
    ensures IsLowest(x, h, g, t)
  {
    forall i | InBucket(h, g, t, i) ensures x <= h[i].low {
      var j := StageOf(s, h, f, g, t, i);
      assert Summarises(s[j], h, f);
    }
    var j :| InBucket(s, g, t, j) && s[j].low == x;
    assert Summarises(s[j], h, f);
    var i :| InBucket(h, f, s[j].time, i) && h[i].low == x;
    CoarseToo(s, h, f, g, t, j, i);
  }

  lemma BucketsInOrder(h: seq<Candle>, f: int -> int, i: int, j: int)
    requires IsMonotone(f) && TimeOrdered(h) && 0 <= i < |h| && 0 <= j < |h|
    ensures i <= j ==> f(h[i].time) <= f(h[j].time)
  {
  }

  /** In a time-ordered history the first candle of a coarse bucket is the first of its first fine bucket. */
  lemma FirstThroughStage(s: seq<Candle>, h: seq<Candle>, f: int -> int, g: int -> int, t: int, j: int, i: int)
    requires IsStage(s, h, f) && Refines(f, g) && IsMonotone(f) && TimeOrdered(h)
    requires IsFirst(s, g, t, j) && IsFirst(h, f, s[j].time, i)
    ensures IsFirst(h, g, t, i)
  {
    CoarseToo(s, h, f, g, t, j, i);
    forall i' | InBucket(h, g, t, i') ensures i <= i' {
      var j' := StageOf(s, h, f, g, t, i');
      BucketsInOrder(h, f, i', i);
      assert j <= j';
    }
  }

  lemma LastThroughStage(s: seq<Candle>, h: seq<Candle>, f: int -> int, g: int -> int, t: int, j: int, i: int)
    requires IsStage(s, h, f) && Refines(f, g) && IsMonotone(f) && TimeOrdered(h)
    requires IsLast(s, g, t, j) && IsLast(h, f, s[j].time, i)
    ensures IsLast(h, g, t, i)
  {
    CoarseToo(s, h, f, g, t, j, i);
    forall i' | InBucket(h, g, t, i') ensures i' <= i {
      var j' := StageOf(s, h, f, g, t, i');
      BucketsInOrder(h, f, i, i');
      assert j' <= j;
    }
  }

  lemma {:induction false} SumSame(p: Candle -> real, q: Candle -> real, s: seq<Candle>)
    requires forall i :: 0 <= i < |s| ==> p(s[i]) == q(s[i])
    ensures SumOf(p, s) == SumOf(q, s)
  {
    if s != [] {
      SumSame(p, q, s[1..]);
    }
  }

  lemma {:induction false} SumAdds(p: Candle -> real, q: Candle -> real, r: Candle -> real, s: seq<Candle>)
    requires forall i :: 0 <= i < |s| ==> p(s[i]) == q(s[i]) + r(s[i])
    ensures SumOf(p, s) == SumOf(q, s) + SumOf(r, s)
  {
    if s != [] {
      SumAdds(p, q, r, s[1..]);
    }
  }

  lemma {:induction false} SumZero(p: Candle -> real, s: seq<Candle>)
    requires forall i :: 0 <= i < |s| ==> p(s[i]) == 0.0
    ensures SumOf(p, s) == 0.0
  {
    if s != [] {
      SumZero(p, s[1..]);
    }
  }

  /** A function that is zero but at one index sums to its value there. */
  lemma SumSpike(p: Candle -> real, s: seq<Candle>, j: nat)
    requires j < |s| && forall i :: 0 <= i < |s| && i != j ==> p(s[i]) == 0.0
    ensures SumOf(p, s) == p(s[j])
  {
    SumWithout(p, s, j);
    SumZero(p, s[..j] + s[j + 1..]);
  }

  /** What the fine bucket of `b` took from `h`, if it lies in the coarse bucket `t`. */
  ghost function Share(h: seq<Candle>, f: int -> int, g: int -> int, t: int): Candle -> real {
    (b: Candle) => if g(b.time) == t then SumOf(VolumeIn(f, b.time), h) else 0.0
  }

  ghost function ShareOf(c: Candle, f: int -> int, g: int -> int, t: int): Candle -> real {
    (b: Candle) => if g(b.time) == t then VolumeIn(f, b.time)(c) else 0.0
  }

  /** Each candle is counted in exactly one fine bucket, which lies in its coarse bucket. */
  lemma OneShare(s: seq<Candle>, c: Candle, f: int -> int, g: int -> int, t: int, j: int)
    requires Refines(f, g) && StartsAt(s, f(c.time), j)
    requires Increasing(s)
    ensures SumOf(ShareOf(c, f, g, t), s) == VolumeIn(g, t)(c)
  {
    assert g(f(c.time)) == g(c.time);
    forall i | 0 <= i < |s| && i != j ensures ShareOf(c, f, g, t)(s[i]) == 0.0 {
      assert s[i].time != s[j].time;
    }
    SumSpike(ShareOf(c, f, g, t), s, j);
  }

  lemma ShareOneMore(s: seq<Candle>, h: seq<Candle>, c: Candle, f: int -> int, g: int -> int, t: int)
    ensures SumOf(Share(h + [c], f, g, t), s) == SumOf(Share(h, f, g, t), s) + SumOf(ShareOf(c, f, g, t), s)
  {
    forall i | 0 <= i < |s|
      ensures Share(h + [c], f, g, t)(s[i]) == Share(h, f, g, t)(s[i]) + ShareOf(c, f, g, t)(s[i])
    {
      VolumeOneMore(h, c, f, s[i].time);
    }
    SumAdds(Share(h + [c], f, g, t), Share(h, f, g, t), ShareOf(c, f, g, t), s);
  }

  lemma {:induction false} SharesAddUp(s: seq<Candle>, h: seq<Candle>, f: int -> int, g: int -> int, t: int)
    requires Refines(f, g) && Covers(s, h, f)
    requires Increasing(s)
    ensures SumOf(Share(h, f, g, t), s) == SumOf(VolumeIn(g, t), h)
  {
    if h == [] {
      forall i | 0 <= i < |s| ensures Share(h, f, g, t)(s[i]) == 0.0 {
        assert SumOf(VolumeIn(f, s[i].time), h) == 0.0;
      }
      SumZero(Share(h, f, g, t), s);
    } else {
      var h', c := h[..|h| - 1], h[|h| - 1];
      assert h == h' + [c];
      forall i | 0 <= i < |h'| ensures HasStart(s, f(h'[i].time)) {
        assert h'[i] == h[i];
      }
      SharesAddUp(s, h', f, g, t);
      VolumeOneMore(h', c, g, t);
      ShareOneMore(s, h', c, f, g, t);
      assert HasStart(s, f(c.time)) by { assert h[|h| - 1] == c; }
      var j :| StartsAt(s, f(c.time), j);
      OneShare(s, c, f, g, t, j);
    }
  }

  lemma VolumeThroughStage(s: seq<Candle>, h: seq<Candle>, f: int -> int, g: int -> int, t: int)
    requires IsStage(s, h, f) && Refines(f, g)
    ensures SumOf(VolumeIn(g, t), s) == SumOf(VolumeIn(g, t), h)
  {
    forall j | 0 <= j < |s| ensures VolumeIn(g, t)(s[j]) == Share(h, f, g, t)(s[j]) {
      assert Summarises(s[j], h, f);
    }
    SumSame(VolumeIn(g, t), Share(h, f, g, t), s);
    SharesAddUp(s, h, f, g, t);
  }

  /** The nonempty fine buckets of a coarse one. */
  ghost function FineBuckets(h: seq<Candle>, f: int -> int, g: int -> int, t: int): set<int> {
    set i | 0 <= i < |h| && g(h[i].time) == t :: f(h[i].time)
  }

  ghost function StartsIn(s: seq<Candle>, g: int -> int, t: int): set<int> {
    set j | 0 <= j < |s| && g(s[j].time) == t :: s[j].time
  }

  lemma StartsOneMore(s: seq<Candle>, g: int -> int, t: int)
    requires s != [] && Increasing(s)
    ensures var before, c := s[..|s| - 1], s[|s| - 1];
            && c.time !in StartsIn(before, g, t)
            && StartsIn(s, g, t)
               == if g(c.time) == t then StartsIn(before, g, t) + {c.time} else StartsIn(before, g, t)
  {
    var before, c := s[..|s| - 1], s[|s| - 1];
    forall x ensures x in StartsIn(s, g, t) <==> x in StartsIn(before, g, t) || (g(c.time) == t && x == c.time) {
      if x in StartsIn(before, g, t) {
        var j :| 0 <= j < |before| && g(before[j].time) == t && before[j].time == x;
        assert s[j] == before[j];
      }
      if x in StartsIn(s, g, t) {
        var j :| 0 <= j < |s| && g(s[j].time) == t && s[j].time == x;
        assert j < |before| ==> before[j] == s[j];
      }
    }
  }

  lemma {:induction false} CountIsStarts(s: seq<Candle>, g: int -> int, t: int)
    requires Increasing(s)
    ensures Count(s, g, t) == |StartsIn(s, g, t)|
  {
    if s != [] {
      var n := |s| - 1;
      CountIsStarts(s[..n], g, t);
      StartsOneMore(s, g, t);
    }
  }

  lemma FineBucketStarts(s: seq<Candle>, h: seq<Candle>, f: int -> int, g: int -> int, t: int, x: int)
    requires IsStage(s, h, f) && Refines(f, g) && x in FineBuckets(h, f, g, t)
    ensures x in StartsIn(s, g, t)
  {
    var i :| 0 <= i < |h| && g(h[i].time) == t && f(h[i].time) == x;
    var j := StageOf(s, h, f, g, t, i);
  }

  lemma StartOfFineBucket(s: seq<Candle>, h: seq<Candle>, f: int -> int, g: int -> int, t: int, x: int)
    requires IsStage(s, h, f) && Refines(f, g) && x in StartsIn(s, g, t)
    ensures x in FineBuckets(h, f, g, t)
  {
    var j :| 0 <= j < |s| && g(s[j].time) == t && s[j].time == x;
    assert Summarises(s[j], h, f);
    var i :| IsLast(h, f, x, i) && s[j].close == h[i].close;
    CoarseToo(s, h, f, g, t, j, i);
  }

  /** A second stage counts the nonempty fine buckets. */
  lemma CountThroughStage(s: seq<Candle>, h: seq<Candle>, f: int -> int, g: int -> int, t: int)
    requires IsStage(s, h, f) && Refines(f, g)
    ensures Count(s, g, t) == |FineBuckets(h, f, g, t)|
  {
    CountIsStarts(s, g, t);
    forall x: int ensures x in StartsIn(s, g, t) <==> x in FineBuckets(h, f, g, t) {
      if x in FineBuckets(h, f, g, t) {
        FineBucketStarts(s, h, f, g, t, x);
      }
      if x in StartsIn(s, g, t) {
        StartOfFineBucket(s, h, f, g, t, x);
      }
    }
    assert StartsIn(s, g, t) == FineBuckets(h, f, g, t);
  }

  lemma OpensThroughStage(b: Candle, s: seq<Candle>, h: seq<Candle>, f: int -> int, g: int -> int)
    requires IsStage(s, h, f) && Refines(f, g) && IsMonotone(f) && TimeOrdered(h) && Opens(b, s, g)
    ensures Opens(b, h, g)
  {
    var j :| IsFirst(s, g, b.time, j) && b.open == s[j].open
          && b.symbol == s[j].symbol && b.exchange == s[j].exchange;
    assert Summarises(s[j], h, f);
    var i :| IsFirst(h, f, s[j].time, i) && s[j].open == h[i].open
          && s[j].symbol == h[i].symbol && s[j].exchange == h[i].exchange;
    FirstThroughStage(s, h, f, g, b.time, j, i);
  }

  lemma ClosesThroughStage(b: Candle, s: seq<Candle>, h: seq<Candle>, f: int -> int, g: int -> int)
    requires IsStage(s, h, f) && Refines(f, g) && IsMonotone(f) && TimeOrdered(h) && Closes(b, s, g)
    ensures Closes(b, h, g)
  {
    var j :| IsLast(s, g, b.time, j) && b.close == s[j].close;
    assert Summarises(s[j], h, f);
    var i :| IsLast(h, f, s[j].time, i) && s[j].close == h[i].close;
    LastThroughStage(s, h, f, g, b.time, j, i);
  }

  /** High, low and volume do not depend on the order of the candles. */
  lemma RangeThroughStage(b: Candle, s: seq<Candle>, h: seq<Candle>, f: int -> int, g: int -> int)
    requires IsStage(s, h, f) && Refines(f, g) && Summarises(b, s, g)
    ensures IsHighest(b.high, h, g, b.time) && IsLowest(b.low, h, g, b.time)
    ensures b.volume == SumOf(VolumeIn(g, b.time), h)
  {
    HighestThroughStage(b.high, s, h, f, g, b.time);
    LowestThroughStage(b.low, s, h, f, g, b.time);
    VolumeThroughStage(s, h, f, g, b.time);
  }

  /** The fold of a bucket is unique, its candle count aside. */
  lemma OneSummary(b: Candle, c: Candle, h: seq<Candle>, g: int -> int)
    requires b.time == c.time && b.timeframe == c.timeframe && b.closed == c.closed
    requires Opens(b, h, g) && Closes(b, h, g) && Summarises(c, h, g)
    requires IsHighest(b.high, h, g, b.time) && IsLowest(b.low, h, g, b.time)
    requires b.volume == SumOf(VolumeIn(g, b.time), h)
    ensures b == c.(trades := b.trades)
  {
    assert Opens(c, h, g) && Closes(c, h, g);
  }

  lemma SameEntry(k: int, b: Candle, c: Candle, s: seq<Candle>, h: seq<Candle>,
                  f: int -> int, g: int -> int, key: int -> int, timeframe: string)
    requires IsBucketing(f, key) && IsBucketing(g, key) && Refines(f, g) && TimeOrdered(h) && IsStage(s, h, f)
    requires IsEntry(k, b, s, g, key, timeframe) && IsEntry(k, c, h, g, key, timeframe)
    ensures b == c.(trades := |FineBuckets(h, f, g, c.time)|)
  {
    KeyNamesTime(g, key, b.time, c.time);
    OpensThroughStage(b, s, h, f, g);
    ClosesThroughStage(b, s, h, f, g);
    RangeThroughStage(b, s, h, f, g);
    OneSummary(b, c, h, g);
    CountThroughStage(s, h, f, g, b.time);
  }

  lemma DirectKey(k: int, c: Candle, s: seq<Candle>, h: seq<Candle>, f: int -> int, g: int -> int, key: int -> int,
                  timeframe: string, staged: map<int, Candle>)
    requires Refines(f, g) && IsStage(s, h, f)
    requires IsEntry(k, c, h, g, key, timeframe) && Aggregates(staged, s, g, key, timeframe)
    ensures k in staged
  {
    var i :| IsFirst(h, g, c.time, i) && c.open == h[i].open;
    var j := StageOf(s, h, f, g, c.time, i);
  }

  lemma StagedKey(k: int, b: Candle, s: seq<Candle>, h: seq<Candle>, f: int -> int, g: int -> int, key: int -> int,
                  timeframe: string, direct: map<int, Candle>)
    requires Refines(f, g) && IsBucketing(f, key) && TimeOrdered(h) && IsStage(s, h, f)
    requires IsEntry(k, b, s, g, key, timeframe) && Aggregates(direct, h, g, key, timeframe)
    ensures k in direct
  {
    OpensThroughStage(b, s, h, f, g);
    var i :| IsFirst(h, g, b.time, i) && b.open == h[i].open;
  }

  ghost predicate TwoStages(h: seq<Candle>, s: seq<Candle>, staged: map<int, Candle>, direct: map<int, Candle>,
                            f: int -> int, g: int -> int, key: int -> int, timeframe: string) {
    && IsBucketing(f, key) && IsBucketing(g, key) && Refines(f, g) && TimeOrdered(h) && IsStage(s, h, f)
    && Aggregates(staged, s, g, key, timeframe) && Aggregates(direct, h, g, key, timeframe)
  }

  lemma KeysAgree(h: seq<Candle>, s: seq<Candle>, staged: map<int, Candle>, direct: map<int, Candle>,
                  f: int -> int, g: int -> int, key: int -> int, timeframe: string, k: int)
    requires TwoStages(h, s, staged, direct, f, g, key, timeframe)
    ensures k in staged <==> k in direct
  {
    if k in staged {
      StagedKey(k, staged[k], s, h, f, g, key, timeframe, direct);
    }
    if k in direct {
      DirectKey(k, direct[k], s, h, f, g, key, timeframe, staged);
    }
  }

  lemma EntriesAgree(h: seq<Candle>, s: seq<Candle>, staged: map<int, Candle>, direct: map<int, Candle>,
                     f: int -> int, g: int -> int, key: int -> int, timeframe: string, k: int)
    requires TwoStages(h, s, staged, direct, f, g, key, timeframe) && k in staged && k in direct
    ensures staged[k] == direct[k].(trades := |FineBuckets(h, f, g, direct[k].time)|)
  {
    SameEntry(k, staged[k], direct[k], s, h, f, g, key, timeframe);
  }

  /** Aggregating through a finer stage gives the buckets of direct aggregation, but for the count, which
      is of nonempty fine buckets. */
  lemma StagesAgree(h: seq<Candle>, s: seq<Candle>, staged: map<int, Candle>, direct: map<int, Candle>,
                    f: int -> int, g: int -> int, key: int -> int, timeframe: string)
    requires TwoStages(h, s, staged, direct, f, g, key, timeframe)
    ensures staged.Keys == direct.Keys
    ensures forall k :: k in direct ==> staged[k] == direct[k].(trades := |FineBuckets(h, f, g, direct[k].time)|)
  {
    forall k: int ensures k in staged <==> k in direct {
      KeysAgree(h, s, staged, direct, f, g, key, timeframe, k);
    }
    forall k | k in direct ensures staged[k] == direct[k].(trades := |FineBuckets(h, f, g, direct[k].time)|) {
      EntriesAgree(h, s, staged, direct, f, g, key, timeframe, k);
    }
  }

  /** `direct` aggregates the history in buckets of `e`; `staged` does so with the candles `s` that
      aggregating it in buckets of `d` ends up with. */
  ghost predicate IsRestaged(h: seq<Candle>, d: int, e: int, fine: string, coarse: string, first: map<int, Candle>,
                             s: seq<Candle>, staged: map<int, Candle>, direct: map<int, Candle>)
    requires d > 0 && e > 0
  {
    && TimeOrdered(h) && Aggregates(first, h, Bucket(d), Unix, fine) && Lists(s, first, Unix)
    && Aggregates(staged, s, Bucket(e), Unix, coarse) && Aggregates(direct, h, Bucket(e), Unix, coarse)
  }

  /** The two hold the same buckets, but for the count, which is of nonempty fine buckets. */
  ghost predicate Agree(staged: map<int, Candle>, direct: map<int, Candle>, h: seq<Candle>, d: int, e: int)
    requires d > 0 && e > 0
  {
    && staged.Keys == direct.Keys
    && forall k :: k in direct ==>
      staged[k] == direct[k].(trades := |FineBuckets(h, Bucket(d), Bucket(e), direct[k].time)|)
  }

  /** Where one duration divides another, aggregating in two stages agrees with aggregating once. */
  lemma TwoStagesAgree(h: seq<Candle>, d: int, e: int, fine: string, coarse: string, first: map<int, Candle>,
                       s: seq<Candle>, staged: map<int, Candle>, direct: map<int, Candle>)
    requires d > 0 && e > 0 && d % SECOND == e % SECOND == 0 && e % d == 0
    requires IsRestaged(h, d, e, fine, coarse, first, s, staged, direct)
    ensures Agree(staged, direct, h, d, e)
  {
    DurationsAreBuckets(d);
    DurationsAreBuckets(e);
    DurationsRefineIff(d, e);
    ListedIsStage(s, first, h, Bucket(d), Unix, fine);
    StagesAgree(h, s, staged, direct, Bucket(d), Bucket(e), Unix, coarse);
  }

  lemma OneCandleAggregates(c: Candle, d: int, timeframe: string) returns (m: map<int, Candle>)
    requires d > 0 && d % SECOND == 0
    ensures m == map[Unix(Truncated(c.time, d)) := Started(c, Truncated(c.time, d), timeframe)]
    ensures Aggregates(m, [c], Bucket(d), Unix, timeframe)
  {
    var t := Truncated(c.time, d);
    m := map[][Unix(t) := Started(c, t, timeframe)];
    DurationStep(map[], [], c, d, timeframe, t, Unix(t), Started(c, t, timeframe));
    assert [] + [c] == [c];
  }

  /** Where the durations do not divide, the candle that starts the second coarse bucket is moved into
      the first one. */
  lemma OneCandleMoves(c: Candle, d: int, e: int, fine: string, coarse: string)
    returns (first: map<int, Candle>, s: seq<Candle>, staged: map<int, Candle>, direct: map<int, Candle>)
    requires d > 0 && e > 0 && d % SECOND == e % SECOND == 0 && e % d != 0 && c.time == e
    ensures IsRestaged([c], d, e, fine, coarse, first, s, staged, direct)
    ensures direct == map[Unix(e) := Started(c, e, coarse)]
    ensures staged == map[Unix(0) := Started(c, 0, coarse)]
    ensures Unix(0) != Unix(e)
  {
    SecondBucketSplits(d, e);
    var start := Truncated(e, d);
    first := OneCandleAggregates(c, d, fine);
    direct := OneCandleAggregates(c, e, coarse);
    s := [Started(c, start, fine)];
    staged := OneCandleAggregates(s[0], e, coarse);
  }

  lemma OtherKeys(staged: map<int, Candle>, direct: map<int, Candle>, h: seq<Candle>, d: int, e: int, k: int)
    requires d > 0 && e > 0 && k in direct && k !in staged
    ensures !Agree(staged, direct, h, d, e)
  {
    assert k in direct.Keys && k !in staged.Keys;
  }

  /** Aggregating every history in two stages agrees with aggregating it once if and only if one
      duration divides the other. */
  lemma TwoStagesAgreeIff(d: int, e: int, fine: string, coarse: string)
    requires d > 0 && e > 0 && d % SECOND == e % SECOND == 0
    ensures (forall h, first, s, staged, direct :: IsRestaged(h, d, e, fine, coarse, first, s, staged, direct) ==>
               Agree(staged, direct, h, d, e))
       <==> e % d == 0
  {
    if e % d == 0 {
      forall h, first, s, staged, direct | IsRestaged(h, d, e, fine, coarse, first, s, staged, direct)
        ensures Agree(staged, direct, h, d, e)
      {
        TwoStagesAgree(h, d, e, fine, coarse, first, s, staged, direct);
      }
    } else {
      var c := Candle("", "", "", e, 0.0, 0.0, 0.0, 0.0, 0.0, 1, false);
      var first, s, staged, direct := OneCandleMoves(c, d, e, fine, coarse);
      OtherKeys(staged, direct, [c], d, e, Unix(e));
    }
  }

  /** A candle at the start of the second month: through weeks it ends up in the first month. */
  lemma WeeksMisplaceMonths(c: Candle)
    returns (weeks: map<int, Candle>, s: seq<Candle>, staged: map<int, Candle>, direct: map<int, Candle>)
    requires c.time == 30 * DAY
    ensures IsRestaged([c], Duration("1w"), Duration("1M"), "1w", "1M", weeks, s, staged, direct)
    ensures direct == map[Unix(30 * DAY) := Started(c, 30 * DAY, "1M")]
    ensures staged == map[Unix(0) := Started(c, 0, "1M")]
  {
    TimeframesNest();
    weeks, s, staged, direct := OneCandleMoves(c, 7 * DAY, 30 * DAY, "1w", "1M");
  }

  /** One aggregator that is fed the candles of a finer one, in order, ends up with the buckets of one
      that is fed the original candles; its counts are of nonempty fine buckets. */
  lemma TwoAggregatorsAgree(fine: TimeframeAggregator, staged: TimeframeAggregator, direct: TimeframeAggregator)
    requires fine.Valid() && staged.Valid() && direct.Valid()
    requires staged.timeframe == direct.timeframe && staged.duration == direct.duration
    requires direct.duration % fine.duration == 0
    requires direct.history == fine.history && TimeOrdered(fine.history)
    requires Lists(staged.history, fine.candles, Unix)
    ensures Agree(staged.candles, direct.candles, fine.history, fine.duration, direct.duration)
  {
    TwoStagesAgree(fine.history, fine.duration, direct.duration,
                   fine.timeframe, direct.timeframe, fine.candles, staged.history, staged.candles, direct.candles);
  }

  // ----- what the second stage is fed -----

  method InsertByTime(s: seq<Candle>, c: Candle) returns (r: seq<Candle>)
    requires Increasing(s) && forall i :: 0 <= i < |s| ==> s[i].time != c.time
    ensures Increasing(r) && forall x :: x in r <==> x in s || x == c
  {
    var k := 0;
    while k < |s| && s[k].time < c.time
      invariant k <= |s| && forall i :: 0 <= i < k ==> s[i].time < c.time
    {
      k := k + 1;
    }
    r := s[..k] + [c] + s[k..];
    MultisetInsert(s, k, c);
  }

  /** All but the entries in `todo` are listed. */
  ghost predicate ListsDone(s: seq<Candle>, m: map<int, Candle>, key: int -> int, todo: set<(int, Candle)>) {
    && Increasing(s)
    && (forall p :: p in todo ==> p.0 in m && m[p.0] == p.1)
    && (forall x :: x in s ==> key(x.time) in m && m[key(x.time)] == x && (key(x.time), x) !in todo)
    && (forall k :: k in m && (k, m[k]) !in todo ==> m[k] in s)
  }

  lemma NotListed(s: seq<Candle>, m: map<int, Candle>, key: int -> int, todo: set<(int, Candle)>, p: (int, Candle))
    requires ListsDone(s, m, key, todo) && p in todo && forall k :: k in m ==> k == key(m[k].time)
    ensures p.0 == key(p.1.time) && forall i :: 0 <= i < |s| ==> s[i].time != p.1.time
  {
    forall i | 0 <= i < |s| ensures s[i].time != p.1.time {
      assert s[i] in s;
    }
  }

  lemma OneMoreListed(s: seq<Candle>, r: seq<Candle>, m: map<int, Candle>, key: int -> int,
                      todo: set<(int, Candle)>, p: (int, Candle))
    requires ListsDone(s, m, key, todo) && p in todo && p.0 == key(p.1.time)
    requires Increasing(r) && forall x :: x in r <==> x in s || x == p.1
    ensures ListsDone(r, m, key, todo - {p})
  {
  }

  /** The candles of a map, which come in any order, sorted by time. */
  method InOrder(m: map<int, Candle>, ghost key: int -> int) returns (s: seq<Candle>)
    requires forall k :: k in m ==> k == key(m[k].time)
    ensures Lists(s, m, key)
  {
    s := [];
    var todo := m.Items;
    while todo != {}
      invariant ListsDone(s, m, key, todo)
      decreases todo
    {
      var p :| p in todo;
      ghost var before := s;
      NotListed(s, m, key, todo, p);
      s := InsertByTime(s, p.1);
      OneMoreListed(before, s, m, key, todo, p);
      todo := todo - {p};
    }
  }

  lemma KeyedByTime(agg: TimeframeAggregator)
    requires agg.Valid()
    ensures forall k :: k in agg.candles ==> k == Unix(agg.candles[k].time)
  {
    forall k | k in agg.candles ensures k == Unix(agg.candles[k].time) {
      assert IsEntry(k, agg.candles[k], agg.history, Bucket(agg.duration), Unix, agg.timeframe);
    }
  }

  /** The candles of an aggregator, as a second stage is fed. */
  method CandlesInOrder(agg: TimeframeAggregator) returns (s: seq<Candle>)
    requires agg.Valid()
    ensures Lists(s, agg.candles, Unix) && IsStage(s, agg.history, Bucket(agg.duration))
  {
    KeyedByTime(agg);
    s := InOrder(agg.candles, Unix);
    DurationsAreBuckets(agg.duration);
    ListedIsStage(s, agg.candles, agg.history, Bucket(agg.duration), Unix, agg.timeframe);
  }
}
