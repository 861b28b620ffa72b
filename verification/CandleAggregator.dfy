/** Folding a stream of candles into buckets of a timeframe. Times count nanoseconds from the zero time. */
module CandleAggregation {
  import opened RealSums
  import IntMath

  const SECOND := 1_000_000_000
  const MINUTE := 60 * SECOND
  const HOUR := 60 * MINUTE
  const DAY := 24 * HOUR

  function Duration(timeframe: string): (d: int)
    ensures d >= MINUTE && d % MINUTE == 0
  {
    if timeframe == "1m" then MINUTE
    else if timeframe == "5m" then 5 * MINUTE
    else if timeframe == "15m" then 15 * MINUTE
    else if timeframe == "30m" then 30 * MINUTE
    else if timeframe == "1h" then HOUR
    else if timeframe == "4h" then 4 * HOUR
    else if timeframe == "1d" then DAY
    else if timeframe == "1w" then 7 * DAY
    else if timeframe == "1M" then 30 * DAY
    else MINUTE
  }

  datatype Candle = Candle(
    symbol: string, exchange: string, timeframe: string, time: int,
    open: real, high: real, low: real, close: real, volume: real, trades: int, closed: bool)

  /** The start of the bucket that holds time `t`. */
  function Truncated(t: int, d: int): int
    requires d > 0
  {
    t - t % d
  }

  const ZERO_TO_EPOCH := 62_135_596_800

  function Unix(t: int): int { t / SECOND - ZERO_TO_EPOCH }

  function Max(a: real, b: real): real { if a > b then a else b }

  function Min(a: real, b: real): real { if a < b then a else b }

  ghost function Bucket(d: int): int -> int
    requires d > 0
  {
    t => Truncated(t, d)
  }

  ghost predicate IsMonotone(f: int -> int) {
    forall s, t :: s <= t ==> f(s) <= f(t)
  }

  /** What a bucket function `f` and its `key` must be: `f` rounds to its own fixed points and
      keeps order, and no two of them share a key. */
  ghost predicate IsBucketing(f: int -> int, key: int -> int) {
    && (forall t {:trigger f(f(t))} :: f(f(t)) == f(t))
    && (forall s, t :: key(f(s)) == key(f(t)) ==> f(s) == f(t))
    && IsMonotone(f)
  }

  // ----- the meaning of one bucket's candle -----

  ghost predicate InBucket(h: seq<Candle>, f: int -> int, t: int, i: int) {
    0 <= i < |h| && f(h[i].time) == t
  }

  ghost predicate IsFirst(h: seq<Candle>, f: int -> int, t: int, i: int) {
    InBucket(h, f, t, i) && forall j :: InBucket(h, f, t, j) ==> i <= j
  }

  ghost predicate IsLast(h: seq<Candle>, f: int -> int, t: int, i: int) {
    InBucket(h, f, t, i) && forall j :: InBucket(h, f, t, j) ==> j <= i
  }

  ghost predicate IsHighest(x: real, h: seq<Candle>, f: int -> int, t: int) {
    && (forall i :: InBucket(h, f, t, i) ==> h[i].high <= x)
    && (exists i :: InBucket(h, f, t, i) && h[i].high == x)
  }

  ghost predicate IsLowest(x: real, h: seq<Candle>, f: int -> int, t: int) {
    && (forall i :: InBucket(h, f, t, i) ==> x <= h[i].low)
    && (exists i :: InBucket(h, f, t, i) && h[i].low == x)
  }

  ghost predicate Opens(b: Candle, h: seq<Candle>, f: int -> int) {
    exists i :: IsFirst(h, f, b.time, i) && b.open == h[i].open
      && b.symbol == h[i].symbol && b.exchange == h[i].exchange
  }

  ghost predicate Closes(b: Candle, h: seq<Candle>, f: int -> int) {
    exists i :: IsLast(h, f, b.time, i) && b.close == h[i].close
  }

  ghost function VolumeIn(f: int -> int, t: int): Candle -> real {
    (c: Candle) => if f(c.time) == t then c.volume else 0.0
  }

  ghost function Count(h: seq<Candle>, f: int -> int, t: int): int {
    if h == [] then 0
    else Count(h[..|h| - 1], f, t) + if f(h[|h| - 1].time) == t then 1 else 0
  }

  /** `b` is the fold of exactly the candles of `h` in its bucket. */
  ghost predicate Summarises(b: Candle, h: seq<Candle>, f: int -> int) {
    && Opens(b, h, f) && Closes(b, h, f)
    && IsHighest(b.high, h, f, b.time) && IsLowest(b.low, h, f, b.time)
    && b.volume == SumOf(VolumeIn(f, b.time), h)
    && b.trades == Count(h, f, b.time)
  }

  ghost predicate IsEntry(k: int, b: Candle, h: seq<Candle>, f: int -> int, key: int -> int, timeframe: string) {
    && k == key(b.time) && f(b.time) == b.time && Summarises(b, h, f)
    && b.timeframe == timeframe && !b.closed
  }

  /** `m` holds one summary per nonempty bucket of `h`, and nothing else. */
  ghost predicate Aggregates(m: map<int, Candle>, h: seq<Candle>, f: int -> int, key: int -> int, timeframe: string) {
    && (forall k :: k in m ==> IsEntry(k, m[k], h, f, key, timeframe))
    && (forall i :: 0 <= i < |h| ==> key(f(h[i].time)) in m)
  }

  // ----- one more candle -----

  function Started(c: Candle, t: int, timeframe: string): Candle {
    c.(timeframe := timeframe, time := t, trades := 1, closed := false)
  }

  function Extended(b: Candle, c: Candle): Candle {
    b.(high := Max(b.high, c.high), low := Min(b.low, c.low), close := c.close,
       volume := b.volume + c.volume, trades := b.trades + 1)
  }

  lemma InOneMore(h: seq<Candle>, c: Candle, f: int -> int, t: int)
    ensures forall i :: InBucket(h + [c], f, t, i) <==> InBucket(h, f, t, i) || (i == |h| && f(c.time) == t)
  {
  }

  lemma VolumeOneMore(h: seq<Candle>, c: Candle, f: int -> int, t: int)
    ensures SumOf(VolumeIn(f, t), h + [c]) == SumOf(VolumeIn(f, t), h) + VolumeIn(f, t)(c)
  {
    SumConcat(VolumeIn(f, t), h, [c]);
  }

  lemma CountOneMore(h: seq<Candle>, c: Candle, f: int -> int, t: int)
    ensures Count(h + [c], f, t) == Count(h, f, t) + if f(c.time) == t then 1 else 0
  {
    assert (h + [c])[..|h|] == h;
  }

  lemma Kept(b: Candle, h: seq<Candle>, c: Candle, f: int -> int)
    requires Summarises(b, h, f) && f(c.time) != b.time
    ensures Summarises(b, h + [c], f)
  {
    var t := b.time;
    InOneMore(h, c, f, t);
    VolumeOneMore(h, c, f, t);
    CountOneMore(h, c, f, t);
    var i :| IsFirst(h, f, t, i) && b.open == h[i].open && b.symbol == h[i].symbol && b.exchange == h[i].exchange;
    var j :| IsLast(h, f, t, j) && b.close == h[j].close;
    assert IsFirst(h + [c], f, t, i) && IsLast(h + [c], f, t, j);
  }

  lemma HighestGrows(x: real, h: seq<Candle>, c: Candle, f: int -> int, t: int)
    requires IsHighest(x, h, f, t) && f(c.time) == t
    ensures IsHighest(Max(x, c.high), h + [c], f, t)
  {
    InOneMore(h, c, f, t);
    var i :| InBucket(h, f, t, i) && h[i].high == x;
    assert InBucket(h + [c], f, t, i) && InBucket(h + [c], f, t, |h|);
  }

  lemma LowestGrows(x: real, h: seq<Candle>, c: Candle, f: int -> int, t: int)
    requires IsLowest(x, h, f, t) && f(c.time) == t
    ensures IsLowest(Min(x, c.low), h + [c], f, t)
  {
    InOneMore(h, c, f, t);
    var i :| InBucket(h, f, t, i) && h[i].low == x;
    assert InBucket(h + [c], f, t, i) && InBucket(h + [c], f, t, |h|);
  }

  lemma Extends(b: Candle, h: seq<Candle>, c: Candle, f: int -> int)
    requires Summarises(b, h, f) && f(c.time) == b.time
    ensures Summarises(Extended(b, c), h + [c], f)
  {
    var t := b.time;
    InOneMore(h, c, f, t);
    VolumeOneMore(h, c, f, t);
    CountOneMore(h, c, f, t);
    var i :| IsFirst(h, f, t, i) && b.open == h[i].open && b.symbol == h[i].symbol && b.exchange == h[i].exchange;
    assert IsFirst(h + [c], f, t, i) && IsLast(h + [c], f, t, |h|);
    HighestGrows(b.high, h, c, f, t);
    LowestGrows(b.low, h, c, f, t);
  }

  lemma {:induction false} EmptyBucket(h: seq<Candle>, f: int -> int, t: int)
    requires forall i :: !InBucket(h, f, t, i)
    ensures SumOf(VolumeIn(f, t), h) == 0.0 && Count(h, f, t) == 0
  {
    if h != [] {
      var h', c := h[..|h| - 1], h[|h| - 1];
      assert h == h' + [c];
      InOneMore(h', c, f, t);
      EmptyBucket(h', f, t);
      VolumeOneMore(h', c, f, t);
      CountOneMore(h', c, f, t);
      assert InBucket(h, f, t, |h| - 1) <==> f(c.time) == t;
    }
  }

  lemma Starts(h: seq<Candle>, c: Candle, f: int -> int, timeframe: string)
    requires forall i :: !InBucket(h, f, f(c.time), i)
    ensures Summarises(Started(c, f(c.time), timeframe), h + [c], f)
  {
    var t := f(c.time);
    InOneMore(h, c, f, t);
    EmptyBucket(h, f, t);
    VolumeOneMore(h, c, f, t);
    CountOneMore(h, c, f, t);
    assert InBucket(h + [c], f, t, |h|);
    assert IsFirst(h + [c], f, t, |h|) && IsLast(h + [c], f, t, |h|);
  }

  lemma KeyNamesTime(f: int -> int, key: int -> int, s: int, t: int)
    requires IsBucketing(f, key) && f(s) == s && f(t) == t && key(s) == key(t)
    ensures s == t
  {
    assert key(f(s)) == key(f(t));
  }

  lemma EntryKept(k: int, b: Candle, h: seq<Candle>, c: Candle, f: int -> int, key: int -> int, timeframe: string)
    requires IsBucketing(f, key) && IsEntry(k, b, h, f, key, timeframe) && k != key(f(c.time))
    ensures IsEntry(k, b, h + [c], f, key, timeframe)
  {
    Kept(b, h, c, f);
  }

  lemma EntryExtends(k: int, b: Candle, h: seq<Candle>, c: Candle, f: int -> int, key: int -> int, timeframe: string)
    requires IsBucketing(f, key) && IsEntry(k, b, h, f, key, timeframe) && k == key(f(c.time))
    ensures IsEntry(k, Extended(b, c), h + [c], f, key, timeframe)
  {
    assert f(f(c.time)) == f(c.time);
    KeyNamesTime(f, key, b.time, f(c.time));
    Extends(b, h, c, f);
  }

  lemma EntryStarts(m: map<int, Candle>, h: seq<Candle>, c: Candle, f: int -> int, key: int -> int, timeframe: string)
    requires IsBucketing(f, key) && Aggregates(m, h, f, key, timeframe) && key(f(c.time)) !in m
    ensures IsEntry(key(f(c.time)), Started(c, f(c.time), timeframe), h + [c], f, key, timeframe)
  {
    assert f(f(c.time)) == f(c.time);
    Starts(h, c, f, timeframe);
  }

  lemma OtherEntriesKept(m: map<int, Candle>, h: seq<Candle>, c: Candle, f: int -> int, key: int -> int,
                         timeframe: string)
    requires IsBucketing(f, key) && Aggregates(m, h, f, key, timeframe)
    ensures forall k :: k in m && k != key(f(c.time)) ==> IsEntry(k, m[k], h + [c], f, key, timeframe)
  {
    forall k | k in m && k != key(f(c.time)) ensures IsEntry(k, m[k], h + [c], f, key, timeframe) {
      EntryKept(k, m[k], h, c, f, key, timeframe);
    }
  }

  lemma PutEntry(m: map<int, Candle>, h: seq<Candle>, c: Candle, f: int -> int, key: int -> int,
                 timeframe: string, b: Candle)
    requires IsEntry(key(f(c.time)), b, h + [c], f, key, timeframe)
    requires forall k :: k in m && k != key(f(c.time)) ==> IsEntry(k, m[k], h + [c], f, key, timeframe)
    requires forall i :: 0 <= i < |h| ==> key(f(h[i].time)) in m
    ensures Aggregates(m[key(f(c.time)) := b], h + [c], f, key, timeframe)
  {
  }

  /** One step of the aggregator keeps the whole map equal to the fold of the history. */
  lemma StepAggregates(m: map<int, Candle>, h: seq<Candle>, c: Candle, f: int -> int, key: int -> int,
                       timeframe: string, t: int, k: int, b: Candle)
    requires IsBucketing(f, key) && Aggregates(m, h, f, key, timeframe)
    requires t == f(c.time) && k == key(t)
    requires b == if k in m then Extended(m[k], c) else Started(c, t, timeframe)
    ensures Aggregates(m[k := b], h + [c], f, key, timeframe)
  {
    if k in m {
      EntryExtends(k, m[k], h, c, f, key, timeframe);
    } else {
      EntryStarts(m, h, c, f, key, timeframe);
    }
    OtherEntriesKept(m, h, c, f, key, timeframe);
    PutEntry(m, h, c, f, key, timeframe, b);
  }

  lemma TruncatedIs(t: int, d: int) returns (a: int)
    requires d > 0
    ensures Truncated(t, d) == a * d && a * d <= t < a * d + d
  {
    a := t / d;
    IntMath.QuotientBounds(t, d);
  }

  lemma TruncatedAtStart(d: int, a: int, t: int)
    requires d > 0 && a * d <= t < a * d + d
    ensures Truncated(t, d) == a * d
  {
    IntMath.QuotientBounds(t, d);
    IntMath.QuotientIs(t, d, a);
  }

  lemma MultipleOfMultiple(a: int, b: int, d: int)
    requires b > 0 && d % b == 0
    ensures (a * d) % b == 0
  {
    var q := d / b;
    IntMath.QuotientBounds(d, b);
    assert a * (q * b) == (a * q) * b;
    IntMath.QuotientIs(a * d, b, a * q);
    IntMath.QuotientBounds(a * d, b);
  }

  lemma TruncatedOrder(s: int, t: int, d: int)
    requires d > 0 && s <= t
    ensures Truncated(s, d) <= Truncated(t, d)
  {
    IntMath.QuotientBounds(s, d);
    IntMath.QuotientBounds(t, d);
    IntMath.QuotientMonotone(s, t, d);
    IntMath.ProductOrder(s / d, t / d, d);
  }

  lemma TruncatedTwice(t: int, d: int)
    requires d > 0
    ensures Truncated(Truncated(t, d), d) == Truncated(t, d)
  {
    var a := TruncatedIs(t, d);
    TruncatedAtStart(d, a, a * d);
  }

  lemma WholeSeconds(t: int, d: int)
    requires d > 0 && d % SECOND == 0
    ensures Truncated(t, d) % SECOND == 0
  {
    var a := TruncatedIs(t, d);
    MultipleOfMultiple(a, SECOND, d);
  }

  lemma UnixSeparates(s: int, t: int, d: int)
    requires d > 0 && d % SECOND == 0 && Unix(Truncated(s, d)) == Unix(Truncated(t, d))
    ensures Truncated(s, d) == Truncated(t, d)
  {
    WholeSeconds(s, d);
    WholeSeconds(t, d);
  }

  lemma StartOfBucket(t: int, d: int)
    requires d > 0
    ensures Truncated(t, d) <= t < Truncated(t, d) + d && Truncated(t, d) % d == 0
  {
    var a := TruncatedIs(t, d);
    IntMath.QuotientIs(a * d, d, a);
    IntMath.QuotientBounds(a * d, d);
  }

  /** Unix time starts with the year 1970, 719162 days after the zero time. */
  lemma UnixEpoch(t: int)
    requires t % SECOND == 0
    ensures Unix(t + 719_162 * DAY) * SECOND == t
  {
  }

  /** Rounding down to whole durations is a bucketing, keyed by Unix seconds. */
  lemma DurationsAreBuckets(d: int)
    requires d > 0 && d % SECOND == 0
    ensures IsBucketing(Bucket(d), Unix)
    ensures forall t :: Bucket(d)(t) <= t < Bucket(d)(t) + d && Bucket(d)(t) % d == 0
  {
    var f := Bucket(d);
    forall t ensures f(t) <= t < f(t) + d && f(t) % d == 0 {
      StartOfBucket(t, d);
    }
    forall t ensures f(f(t)) == f(t) {
      TruncatedTwice(t, d);
    }
    forall s, t | Unix(f(s)) == Unix(f(t)) ensures f(s) == f(t) {
      UnixSeparates(s, t, d);
    }
    forall s, t | s <= t ensures f(s) <= f(t) {
      TruncatedOrder(s, t, d);
    }
  }

  ghost predicate Refines(f: int -> int, g: int -> int) {
    forall t {:trigger g(f(t))} :: g(f(t)) == g(t)
  }

  /** Where the durations do not divide, a fine bucket reaches over the start of the second coarse one. */
  lemma SecondBucketSplits(d: int, e: int)
    requires d > 0 && e > 0 && e % d != 0
    ensures Truncated(Truncated(e, d), e) == 0 && Truncated(e, e) == e
  {
    var a := TruncatedIs(e, d);
    IntMath.ProductOrder(0, a + 1, d);
    TruncatedAtStart(e, 0, Truncated(e, d));
    TruncatedAtStart(e, 1, e);
  }

  lemma CoarseOfFine(t: int, d: int, e: int)
    requires d > 0 && e > 0 && e % d == 0
    ensures Truncated(Truncated(t, d), e) == Truncated(t, e)
  {
    var a := TruncatedIs(t, e);
    MultipleOfMultiple(a, d, e);
    var b := TruncatedIs(a * e, d);
    TruncatedOrder(a * e, t, d);
    TruncatedAtStart(e, a, Truncated(t, d));
  }

  /** A coarse bucket is a union of fine ones if and only if the fine duration divides the coarse one. */
  lemma DurationsRefineIff(d: int, e: int)
    requires d > 0 && e > 0
    ensures Refines(Bucket(d), Bucket(e)) <==> e % d == 0
  {
    if e % d == 0 {
      forall t ensures Truncated(Truncated(t, d), e) == Truncated(t, e) {
        CoarseOfFine(t, d, e);
      }
    } else {
      SecondBucketSplits(d, e);
      assert Bucket(e)(Bucket(d)(e)) != Bucket(e)(e);
    }
  }

  /** The timeframes form a chain of multiples, up to the week; a month is whole days but not whole
      weeks, so months cannot be built from weeks. */
  lemma TimeframesNest()
    ensures Duration("1m") == 60 * SECOND
    ensures Duration("5m") == 5 * Duration("1m") && Duration("15m") == 3 * Duration("5m")
    ensures Duration("30m") == 2 * Duration("15m") && Duration("1h") == 2 * Duration("30m")
    ensures Duration("4h") == 4 * Duration("1h") && Duration("1d") == 6 * Duration("4h")
    ensures Duration("1w") == 7 * Duration("1d") && Duration("1M") == 30 * Duration("1d")
    ensures Duration("1M") % Duration("1w") != 0
    ensures Duration("") == Duration("1m")
  {
    assert "1m"[1] == 'm' && "1h"[1] == 'h' && "1d"[1] == 'd' && "1w"[1] == 'w' && "1M"[1] == 'M';
    assert "5m"[0] == '5' && "4h"[0] == '4' && "15m"[0] == '1' && "30m"[0] == '3';
  }

  /** Days refine weeks, and weeks do not refine months. */
  lemma WeeksDoNotRefineMonths()
    ensures Refines(Bucket(Duration("1d")), Bucket(Duration("1w")))
    ensures Refines(Bucket(Duration("1d")), Bucket(Duration("1M")))
    ensures !Refines(Bucket(Duration("1w")), Bucket(Duration("1M")))
  {
    TimeframesNest();
    DurationsRefineIff(Duration("1d"), Duration("1w"));
    DurationsRefineIff(Duration("1d"), Duration("1M"));
    DurationsRefineIff(Duration("1w"), Duration("1M"));
  }

  // ----- the aggregators -----

  lemma DurationStep(m: map<int, Candle>, h: seq<Candle>, c: Candle, d: int, timeframe: string,
                     t: int, k: int, b: Candle)
    requires d > 0 && d % SECOND == 0 && Aggregates(m, h, Bucket(d), Unix, timeframe)
    requires t == Truncated(c.time, d) && k == Unix(t)
    requires b == if k in m then Extended(m[k], c) else Started(c, t, timeframe)
    ensures Aggregates(m[k := b], h + [c], Bucket(d), Unix, timeframe)
  {
    DurationsAreBuckets(d);
    assert Bucket(d)(c.time) == t;
    StepAggregates(m, h, c, Bucket(d), Unix, timeframe, t, k, b);
  }

  class TimeframeAggregator {
    const timeframe: string
    var candles: map<int, Candle>
    /** The duration that every call passes. */
    ghost const duration: int
    ghost var history: seq<Candle>

    ghost predicate Valid() reads this {
      && duration > 0 && duration % SECOND == 0
      && Aggregates(candles, history, Bucket(duration), Unix, timeframe)
    }

    constructor (timeframe: string, ghost duration: int)
      requires duration > 0 && duration % SECOND == 0
      ensures Valid() && this.timeframe == timeframe && this.duration == duration
      ensures history == [] && candles == map[]
    {
      this.timeframe, this.duration := timeframe, duration;
      candles, history := map[], [];
    }

    method AddCandle(candle: Candle, duration: int)
      requires Valid() && duration == this.duration
      modifies this
      ensures Valid() && history == old(history) + [candle]
    {
      var start := Truncated(candle.time, duration);
      var bucket := Unix(start);
      var b;
      if bucket in candles {
        b := Extended(candles[bucket], candle);
      } else {
        b := Started(candle, start, timeframe);
      }
      DurationStep(candles, history, candle, duration, timeframe, start, bucket, b);
      candles := candles[bucket := b];
      history := history + [candle];
    }
  }

  ghost predicate Follows(agg: TimeframeAggregator, timeframe: string, h: seq<Candle>) reads agg {
    agg.timeframe == timeframe && agg.duration == Duration(timeframe) && agg.history == h && agg.Valid()
  }

  class Aggregator {
    var aggregators: map<string, TimeframeAggregator>
    ghost var history: seq<Candle>

    /** Each timeframe has its own aggregator, and all of them have seen the same candles. */
    ghost predicate Valid() reads this, aggregators.Values {
      forall tf :: tf in aggregators ==> Follows(aggregators[tf], tf, history)
    }

    constructor (timeframes: seq<string>)
      ensures Valid() && history == [] && fresh(aggregators.Values)
      ensures forall tf :: tf in aggregators <==> tf in timeframes
    {
      aggregators, history := map[], [];
      new;
      for i := 0 to |timeframes|
        invariant Valid() && history == [] && fresh(aggregators.Values)
        invariant forall tf :: tf in aggregators <==> tf in timeframes[..i]
      {
        var tf := timeframes[i];
        var agg := new TimeframeAggregator(tf, Duration(tf));
        ghost var others := aggregators.Values;
        aggregators := aggregators[tf := agg];
        assert aggregators.Values <= others + {agg};
      }
    }

    method OnCandle(candle: Candle)
      requires Valid()
      modifies this`history, aggregators.Values
      ensures Valid() && history == old(history) + [candle]
    {
      var left := aggregators.Keys;
      ghost var was := history;
      while left != {}
        invariant left <= aggregators.Keys && history == was
        invariant forall tf :: tf in left ==> Follows(aggregators[tf], tf, was)
        invariant forall tf :: tf in aggregators && tf !in left ==> Follows(aggregators[tf], tf, was + [candle])
        decreases left
      {
        var tf :| tf in left;
        left := left - {tf};
        aggregators[tf].AddCandle(candle, Duration(tf));
      }
      history := history + [candle];
    }
  }
}
