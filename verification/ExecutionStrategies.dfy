/** Two execution strategies driven by ticks: the trailing stop and TWAP. */
module ExecutionStrategies {
  import opened Options
  import opened RealMath
  import IntMath

  // ----- trailing stop -----

  /** A position of the engine. The strategy keeps a reference to it and reads it when it sells. */
  class Holding {
    const symbol: string
    var quantity: real
    var currentPrice: real

    constructor (symbol: string, quantity: real, currentPrice: real)
      ensures this.symbol == symbol && this.quantity == quantity && this.currentPrice == currentPrice
    {
      this.symbol, this.quantity, this.currentPrice := symbol, quantity, currentPrice;
    }
  }

  datatype SellOrder = SellOrder(symbol: string, quantity: real)

  datatype Stop = Stop(active: bool, highest: real, distance: real) {
    function Level(): real {
      highest - distance
    }
  }

  function Started(price: real, drop: real -> real): Stop {
    Stop(true, price, drop(price))
  }

  /** How far under a high the stop lies. */
  function Fraction(pct: real): real -> real {
    (high: real) => high * pct
  }

  /** One tick: the new state, and whether the position is sold. */
  function TickStep(s: Stop, drop: real -> real, bid: real): (Stop, bool) {
    if !s.active then (s, false)
    else
      var t := if bid > s.highest then Started(bid, drop) else s;
      if bid <= t.Level() then (t.(active := false), true) else (t, false)
  }

  class TrailingStopStrategy {
    const symbol: string
    const trailingPct: real
    var position: Holding?
    var highestPrice: real
    var stopDistance: real
    var isActive: bool
    var submitted: seq<SellOrder>

    function State(): Stop
      reads this
    {
      Stop(isActive && position != null, highestPrice, stopDistance)
    }

    constructor (symbol: string, trailingPct: Option<real>)
      ensures this.symbol == symbol && this.trailingPct == (if trailingPct.Some? then trailingPct.value else 0.02)
      ensures !State().active && submitted == []
    {
      this.symbol := symbol;
      this.trailingPct := if trailingPct.Some? then trailingPct.value else 0.02;
      position := null;
      highestPrice, stopDistance, isActive := 0.0, 0.0, false;
      submitted := [];
    }

    /** Follows the first long position in its symbol, if there is one. */
    method OnStart(positions: seq<Holding>) returns (ghost at: int)
      modifies this
      ensures submitted == old(submitted)
      ensures at == -1 ==>
        && State() == old(State())
        && forall i :: 0 <= i < |positions| ==> positions[i].symbol != symbol || positions[i].quantity <= 0.0
      ensures at != -1 ==>
        && 0 <= at < |positions| && positions[at].symbol == symbol && positions[at].quantity > 0.0
        && (forall i :: 0 <= i < at ==> positions[i].symbol != symbol || positions[i].quantity <= 0.0)
        && position == positions[at] && State() == Started(positions[at].currentPrice, Fraction(trailingPct))
    {
      at := -1;
      for i := 0 to |positions|
        invariant at == -1 && State() == old(State()) && submitted == old(submitted)
        invariant forall k :: 0 <= k < i ==> positions[k].symbol != symbol || positions[k].quantity <= 0.0
      {
        var pos := positions[i];
        if pos.symbol == symbol && pos.quantity > 0.0 {
          at := i;
          position := pos;
          highestPrice := pos.currentPrice;
          stopDistance := highestPrice * trailingPct;
          isActive := true;
          break;
        }
      }
    }

    /** One tick; a sale is for what the position holds at that moment. */
    method OnTick(bid: real)
      modifies this
      ensures position == old(position)
      ensures var r := TickStep(old(State()), Fraction(trailingPct), bid);
              && State() == r.0
              && (!r.1 ==> submitted == old(submitted))
              && (r.1 ==> position != null && submitted == old(submitted) + [SellOrder(symbol, position.quantity)])
    {
      if !isActive || position == null {
        return;
      }
      if bid > highestPrice {
        highestPrice := bid;
        stopDistance := highestPrice * trailingPct;
      }
      var stopTriggerPrice := highestPrice - stopDistance;
      if bid <= stopTriggerPrice {
        submitted := submitted + [SellOrder(symbol, position.quantity)];
        isActive := false;
      }
    }
  }

  /** The state after the given bids. */
  ghost function After(price: real, drop: real -> real, bids: seq<real>): Stop {
    if bids == [] then Started(price, drop)
    else TickStep(After(price, drop, bids[..|bids| - 1]), drop, bids[|bids| - 1]).0
  }

  ghost predicate SellsAt(price: real, drop: real -> real, bids: seq<real>, i: nat)
    requires i < |bids|
  {
    TickStep(After(price, drop, bids[..i]), drop, bids[i]).1
  }

  /** The highest of the starting price and all bids. */
  ghost function Highest(price: real, bids: seq<real>): real {
    if bids == [] then price
    else
      var before := Highest(price, bids[..|bids| - 1]);
      if bids[|bids| - 1] > before then bids[|bids| - 1] else before
  }

  /** The definition with hindsight: a bid that lies the full drop under the high so far. */
  ghost predicate Breaches(price: real, drop: real -> real, bids: seq<real>, i: nat)
    requires i < |bids|
  {
    var high := Highest(price, bids[..i + 1]);
    bids[i] <= high - drop(high)
  }

  ghost predicate NoBreachBefore(price: real, drop: real -> real, bids: seq<real>, n: nat)
    requires n <= |bids|
  {
    forall k :: 0 <= k < n ==> !Breaches(price, drop, bids, k)
  }

  /** While nothing has been breached the machine is active and knows the high; afterwards it is not. */
  lemma {:induction false} AfterBids(price: real, drop: real -> real, bids: seq<real>, n: nat)
    requires n <= |bids|
    ensures var s := After(price, drop, bids[..n]);
            && (s.active <==> NoBreachBefore(price, drop, bids, n))
            && (s.active ==> s == Started(Highest(price, bids[..n]), drop))
  {
    if n > 0 {
      AfterBids(price, drop, bids, n - 1);
      assert bids[..n][..n - 1] == bids[..n - 1];
      assert NoBreachBefore(price, drop, bids, n) <==>
        NoBreachBefore(price, drop, bids, n - 1) && !Breaches(price, drop, bids, n - 1);
    }
  }

  /** The strategy sells at exactly the first breach. */
  lemma SellsAtFirstBreach(price: real, drop: real -> real, bids: seq<real>, i: nat)
    requires i < |bids|
    ensures SellsAt(price, drop, bids, i) <==> Breaches(price, drop, bids, i) && NoBreachBefore(price, drop, bids, i)
  {
    AfterBids(price, drop, bids, i);
    assert bids[..i + 1][..i] == bids[..i];
  }

  lemma BreachOfFraction(price: real, pct: real, bids: seq<real>, i: nat)
    requires i < |bids|
    ensures Breaches(price, Fraction(pct), bids, i) <==> bids[i] <= (1.0 - pct) * Highest(price, bids[..i + 1])
  {
    var high := Highest(price, bids[..i + 1]);
    assert high - high * pct == (1.0 - pct) * high;
  }

  /** With a trailing fraction: it sells at most once, at the first bid that is at or below that
      fraction under the highest of the starting price and all bids so far. */
  lemma SellsOnceAtFraction(price: real, pct: real, bids: seq<real>, i: nat)
    requires i < |bids| && SellsAt(price, Fraction(pct), bids, i)
    ensures bids[i] <= (1.0 - pct) * Highest(price, bids[..i + 1])
    ensures forall k :: 0 <= k < i ==> bids[k] > (1.0 - pct) * Highest(price, bids[..k + 1])
    ensures forall k :: 0 <= k < |bids| && SellsAt(price, Fraction(pct), bids, k) ==> k == i
  {
    SellsAtFirstBreach(price, Fraction(pct), bids, i);
    BreachOfFraction(price, pct, bids, i);
    forall k | 0 <= k < i
      ensures bids[k] > (1.0 - pct) * Highest(price, bids[..k + 1])
    {
      BreachOfFraction(price, pct, bids, k);
    }
    forall k | 0 <= k < |bids| && SellsAt(price, Fraction(pct), bids, k)
      ensures k == i
    {
      SellsAtFirstBreach(price, Fraction(pct), bids, k);
    }
  }

  lemma LevelsInOrder(pct: real, a: real, b: real)
    requires pct <= 1.0 && a <= b
    ensures Started(a, Fraction(pct)).Level() <= Started(b, Fraction(pct)).Level()
  {
    ProductNonNegative(1.0 - pct, b - a);
    assert (1.0 - pct) * (b - a) == (b - b * pct) - (a - a * pct);
  }

  lemma {:induction false} HighestGrows(price: real, bids: seq<real>, i: nat, j: nat)
    requires i <= j <= |bids|
    ensures Highest(price, bids[..i]) <= Highest(price, bids[..j])
    decreases j
  {
    if i < j {
      HighestGrows(price, bids, i, j - 1);
      assert bids[..j][..j - 1] == bids[..j - 1];
    }
  }

  /** A fraction of at most one never lowers the stop: the level never falls while the stop is active. */
  lemma LevelNeverFalls(price: real, pct: real, bids: seq<real>, i: nat, j: nat)
    requires pct <= 1.0 && i <= j <= |bids| && After(price, Fraction(pct), bids[..j]).active
    ensures After(price, Fraction(pct), bids[..i]).active
    ensures After(price, Fraction(pct), bids[..i]).Level() <= After(price, Fraction(pct), bids[..j]).Level()
  {
    AfterBids(price, Fraction(pct), bids, i);
    AfterBids(price, Fraction(pct), bids, j);
    HighestGrows(price, bids, i, j);
    LevelsInOrder(pct, Highest(price, bids[..i]), Highest(price, bids[..j]));
  }

  // ----- TWAP -----

  /** What to buy, in how many slices of which size, and how long a slice lasts. */
  datatype Plan = Plan(target: real, slices: int, sliceSize: real, interval: int, start: int) {
    /** A plan that can be carried out: forward in time, in equal slices. */
    ghost predicate Runs() {
      slices > 0 && interval > 0 && sliceSize * slices as real == target
    }

    /** The whole intervals that have passed, by Go's quotient. It is not asked for where the interval is 0. */
    function Expected(now: int): int {
      if interval == 0 then 0 else IntMath.Quotient(now - start, interval)
    }
  }

  datatype Progress = Progress(executed: real, slice: int, complete: bool, orders: seq<real>)

  const IDLE := Progress(0.0, 0, false, [])

  /** One tick after `expected` whole intervals; `accepted` says whether the engine takes an order. */
  function TwapStep(p: Plan, s: Progress, expected: int, accepted: bool): Progress {
    if s.complete then s
    else if s.executed >= p.target then s.(complete := true)
    else if expected <= s.slice || !accepted then s
    else
      var quantity := if s.executed + p.sliceSize > p.target then p.target - s.executed else p.sliceSize;
      Progress(s.executed + quantity, expected, s.complete, s.orders + [quantity])
  }

  // ----- what one tick does -----

  /** Both divide time into intervals; they differ only before the start. */
  lemma ExpectedIs(p: Plan, now: int)
    requires p.Runs()
    ensures now >= p.start ==> p.Expected(now) == (now - p.start) / p.interval
    ensures now < p.start ==> p.Expected(now) <= 0
  {
    if now < p.start {
      IntMath.QuotientShrinks(p.start - now, p.interval);
    }
  }

  /** A whole interval has passed since the one of the last order. */
  ghost predicate IsDue(p: Plan, s: Progress, now: int) {
    now >= p.start + (s.slice + 1) * p.interval
  }

  ghost predicate InInterval(p: Plan, now: int, n: int) {
    p.start + n * p.interval <= now < p.start + n * p.interval + p.interval
  }

  ghost function Lesser(a: real, b: real): real { if a <= b then a else b }

  /** An order is placed if and only if one is due, the engine takes it and the target is not reached. It
      is for a slice, or what is left if that is less, and it counts for the interval of the tick. */
  ghost predicate TickBuys(p: Plan, s: Progress, now: int, accepted: bool, s': Progress) {
    if accepted && !s.complete && s.executed < p.target && IsDue(p, s, now) then
      && s'.orders == s.orders + [Lesser(p.sliceSize, p.target - s.executed)]
      && s'.executed == s.executed + Lesser(p.sliceSize, p.target - s.executed)
      && InInterval(p, now, s'.slice) && !s'.complete
    else
      && s'.orders == s.orders && s'.executed == s.executed && s'.slice == s.slice
      && (s'.complete <==> s.complete || s.executed >= p.target)
  }

  lemma DueIff(p: Plan, s: Progress, now: int)
    requires p.Runs() && s.slice >= 0
    ensures p.Expected(now) > s.slice <==> IsDue(p, s, now)
    ensures IsDue(p, s, now) ==> InInterval(p, now, p.Expected(now))
  {
    ExpectedIs(p, now);
    var q := (now - p.start) / p.interval;
    IntMath.QuotientBounds(now - p.start, p.interval);
    IntMath.ProductOrder(s.slice + 1, q, p.interval);
    IntMath.ProductOrder(q, s.slice, p.interval);
    IntMath.ProductOrder(0, s.slice, p.interval);
    assert (s.slice + 1) * p.interval == s.slice * p.interval + p.interval;
  }

  lemma TickBuysIff(p: Plan, s: Progress, now: int, accepted: bool)
    requires p.Runs() && s.slice >= 0
    ensures TickBuys(p, s, now, accepted, TwapStep(p, s, p.Expected(now), accepted))
  {
    DueIff(p, s, now);
  }

  class TWAPStrategy {
    const plan: Plan
    var executedQty: real
    var remainingQty: real
    var currentSlice: int
    var isComplete: bool
    var submitted: seq<real>

    function State(): Progress
      reads this
    {
      Progress(executedQty, currentSlice, isComplete, submitted)
    }

    constructor (target: real, slices: int, interval: int, start: int)
      requires slices != 0
      ensures plan == Plan(target, slices, plan.sliceSize, interval, start) && plan.sliceSize * slices as real == target
      ensures State() == IDLE && remainingQty == target
    {
      DivideBack(target, slices as real);
      plan := Plan(target, slices, target / slices as real, interval, start);
      executedQty, remainingQty, currentSlice, isComplete, submitted := 0.0, target, 0, false, [];
    }

    /** The source divides by the interval unless there is nothing left to buy. */
    method OnTick(now: int, accepted: bool)
      requires plan.interval != 0 || isComplete || executedQty >= plan.target
      requires remainingQty == plan.target - executedQty
      modifies this
      ensures State() == TwapStep(plan, old(State()), plan.Expected(now), accepted)
      ensures plan.Runs() && old(currentSlice) >= 0 ==> TickBuys(plan, old(State()), now, accepted, State())
      ensures remainingQty == plan.target - executedQty
    {
      if plan.Runs() && currentSlice >= 0 {
        TickBuysIff(plan, State(), now, accepted);
      }
      if isComplete {
        return;
      }
      if executedQty >= plan.target {
        isComplete := true;
        return;
      }
      var expectedSlice := plan.Expected(now);
      if expectedSlice > currentSlice && executedQty < plan.target {
        var orderQty := plan.sliceSize;
        if executedQty + orderQty > plan.target {
          orderQty := plan.target - executedQty;
        }
        if !accepted {
          return;
        }
        submitted := submitted + [orderQty];
        executedQty := executedQty + orderQty;
        remainingQty := plan.target - executedQty;
        currentSlice := expectedSlice;
      }
    }
  }

  datatype Tick = Tick(now: int, accepted: bool)

  ghost function TwapRun(p: Plan, ticks: seq<Tick>): Progress
    requires p.interval != 0
  {
    if ticks == [] then IDLE
    else
      var t := ticks[|ticks| - 1];
      TwapStep(p, TwapRun(p, ticks[..|ticks| - 1]), p.Expected(t.now), t.accepted)
  }

  ghost function Total(orders: seq<real>): real {
    if orders == [] then 0.0 else Total(orders[..|orders| - 1]) + orders[|orders| - 1]
  }

  /** `n` slices, or the target if that is less. */
  ghost function Bought(p: Plan, n: nat): real {
    if n == 0 then 0.0
    else
      var sum := Bought(p, n - 1) + p.sliceSize;
      if sum > p.target then p.target else sum
  }

  /** What has been bought, slice by slice. */
  ghost predicate OnPlan(p: Plan, s: Progress) {
    && s.executed == Total(s.orders) == Bought(p, |s.orders|) <= p.target
    && (forall i :: 0 <= i < |s.orders| ==> 0.0 < s.orders[i] <= p.sliceSize)
    && (s.complete ==> s.executed == p.target)
  }

  lemma OneMoreOrder(p: Plan, orders: seq<real>, q: real)
    requires Total(orders) == Bought(p, |orders|)
    requires q == if Bought(p, |orders|) + p.sliceSize > p.target then p.target - Bought(p, |orders|) else p.sliceSize
    ensures Total(orders + [q]) == Bought(p, |orders + [q]|) == Total(orders) + q
  {
    assert (orders + [q])[..|orders + [q]| - 1] == orders;
  }

  lemma TwapTick(p: Plan, s: Progress, t: Tick)
    requires p.Runs() && p.target >= 0.0 && (p.target > 0.0 ==> p.sliceSize > 0.0) && OnPlan(p, s)
    ensures OnPlan(p, TwapStep(p, s, p.Expected(t.now), t.accepted))
  {
    var s' := TwapStep(p, s, p.Expected(t.now), t.accepted);
    if s'.orders != s.orders {
      OneMoreOrder(p, s.orders, s'.executed - s.executed);
    }
  }

  /** The slice that has been reached by `latest` at the latest. */
  ghost predicate OnSchedule(p: Plan, s: Progress, latest: int) {
    |s.orders| <= s.slice && (s.slice > 0 ==> p.start + s.slice * p.interval <= latest)
  }

  lemma SlicesArePositive(p: Plan)
    requires p.Runs()
    ensures p.target > 0.0 ==> p.sliceSize > 0.0
  {
    ProductOrder(0.0, p.sliceSize, p.slices as real);
  }

  lemma {:induction false} BoughtIsProduct(p: Plan, n: nat)
    requires p.sliceSize > 0.0
    ensures Bought(p, n) <= n as real * p.sliceSize
  {
    if n > 0 {
      BoughtIsProduct(p, n - 1);
      assert n as real * p.sliceSize == (n - 1) as real * p.sliceSize + p.sliceSize;
    }
  }

  /** Fewer than all slices are less than the target. */
  lemma BoughtSoFar(p: Plan, n: nat)
    requires p.Runs() && p.target > 0.0 && n < p.slices
    ensures Bought(p, n) < p.target
  {
    SlicesArePositive(p);
    BoughtIsProduct(p, n);
    ProductOrder(n as real, p.slices as real, p.sliceSize);
    assert n as real * p.sliceSize < p.slices as real * p.sliceSize == p.target by {
      assert p.slices as real * p.sliceSize == p.sliceSize * p.slices as real;
    }
  }

  /** Reaching the target takes as many orders as the plan has slices. */
  lemma FinishedInTime(p: Plan, s: Progress, latest: int)
    requires p.Runs() && OnPlan(p, s) && OnSchedule(p, s, latest)
    ensures p.target > 0.0 && s.executed == p.target ==> p.start + p.slices * p.interval <= latest
  {
    if p.target > 0.0 && s.executed == p.target {
      if |s.orders| < p.slices {
        BoughtSoFar(p, |s.orders|);
      }
      IntMath.ProductOrder(p.slices, s.slice, p.interval);
    }
  }

  /** What is counted as passed has passed. */
  lemma IntervalsPassed(p: Plan, now: int)
    requires p.Runs()
    ensures p.Expected(now) > 0 ==> p.start + p.Expected(now) * p.interval <= now
  {
    IntMath.QuotientBounds(now - p.start, p.interval);
    if now < p.start {
      IntMath.QuotientShrinks(p.start - now, p.interval);
    }
  }

  /** Every run buys in equal slices, never beyond the target, with at most one order for each
      interval that has passed. So a run that has reached its target ends no earlier than planned,
      whatever the ticks and the refusals. */
  lemma {:induction false} TwapKeepsItsPlan(p: Plan, ticks: seq<Tick>, latest: int)
    requires p.Runs() && p.target >= 0.0
    requires forall i :: 0 <= i < |ticks| ==> ticks[i].now <= latest
    ensures var s := TwapRun(p, ticks);
            && OnPlan(p, s) && OnSchedule(p, s, latest)
            && (p.target > 0.0 && s.executed == p.target ==> p.start + p.slices * p.interval <= latest)
  {
    SlicesArePositive(p);
    if ticks != [] {
      var n := |ticks| - 1;
      TwapKeepsItsPlan(p, ticks[..n], latest);
      TwapTick(p, TwapRun(p, ticks[..n]), ticks[n]);
      IntervalsPassed(p, ticks[n].now);
    }
    FinishedInTime(p, TwapRun(p, ticks), latest);
  }

  // ----- when the target is reached -----

  /** The clock does not run backwards. */
  ghost predicate InTime(ticks: seq<Tick>) {
    forall i, j :: 0 <= i < j < |ticks| ==> ticks[i].now <= ticks[j].now
  }

  ghost function IntervalOf(p: Plan, t: Tick): int
    requires p.interval > 0
  {
    (t.now - p.start) / p.interval
  }

  /** A tick after the first interval on which the engine takes orders. */
  ghost predicate Serves(p: Plan, t: Tick)
    requires p.interval > 0
  {
    t.accepted && IntervalOf(p, t) >= 1
  }

  /** The intervals after the first one that have a tick on which the engine takes orders. */
  ghost function Served(p: Plan, ticks: seq<Tick>): set<int>
    requires p.interval > 0
  {
    set i | 0 <= i < |ticks| && Serves(p, ticks[i]) :: IntervalOf(p, ticks[i])
  }

  lemma ServedOneMore(p: Plan, ticks: seq<Tick>, t: Tick)
    requires p.interval > 0
    ensures Served(p, ticks + [t]) == Served(p, ticks) + if Serves(p, t) then {IntervalOf(p, t)} else {}
  {
    var more := ticks + [t];
    assert more[|ticks|] == t;
    forall n | n in Served(p, ticks) ensures n in Served(p, more) {
      var i :| 0 <= i < |ticks| && Serves(p, ticks[i]) && IntervalOf(p, ticks[i]) == n;
      assert more[i] == ticks[i];
    }
    forall n | n in Served(p, more) ensures n in Served(p, ticks) || (Serves(p, t) && n == IntervalOf(p, t)) {
      var i :| 0 <= i < |more| && Serves(p, more[i]) && IntervalOf(p, more[i]) == n;
      assert i < |ticks| ==> ticks[i] == more[i];
    }
  }

  /** Until the target is reached, there is an order for each served interval, and the last one is known. */
  ghost predicate KeepsUp(p: Plan, s: Progress, served: set<int>) {
    && s.executed == Bought(p, |served|) <= p.target && s.slice >= 0
    && (s.complete ==> s.executed == p.target)
    && (s.executed < p.target ==>
          (forall n :: n in served ==> n <= s.slice) && (s.slice == 0 || s.slice in served))
  }

  lemma OneMoreServed(p: Plan, s: Progress, served: set<int>, n: int)
    requires p.sliceSize > 0.0 && KeepsUp(p, s, served) && n !in served
    ensures Bought(p, |served + {n}|)
         == if s.executed < p.target then s.executed + Lesser(p.sliceSize, p.target - s.executed) else p.target
  {
    assert |served + {n}| == |served| + 1;
  }

  /** A tick whose interval is no earlier than that of the last order. */
  lemma TickKeepsUp(p: Plan, s: Progress, served: set<int>, t: Tick)
    requires p.Runs() && p.sliceSize > 0.0 && KeepsUp(p, s, served)
    requires forall n :: n in served ==> n <= IntervalOf(p, t)
    ensures KeepsUp(p, TwapStep(p, s, p.Expected(t.now), t.accepted),
                    served + if Serves(p, t) then {IntervalOf(p, t)} else {})
  {
    var n := IntervalOf(p, t);
    var served' := served + if Serves(p, t) then {n} else {};
    TickBuysIff(p, s, t.now, t.accepted);
    ExpectedIs(p, t.now);
    IntMath.QuotientBounds(t.now - p.start, p.interval);
    if t.now < p.start {
      IntMath.ProductOrder(0, n, p.interval);
    }
    if Serves(p, t) && n !in served {
      OneMoreServed(p, s, served, n);
    } else {
      assert served' == served;
    }
  }

  lemma ServedEarlier(p: Plan, ticks: seq<Tick>, t: Tick)
    requires p.interval > 0 && InTime(ticks + [t])
    ensures InTime(ticks) && forall n :: n in Served(p, ticks) ==> n <= IntervalOf(p, t)
  {
    var more := ticks + [t];
    forall i, j | 0 <= i < j < |ticks| ensures ticks[i].now <= ticks[j].now {
      assert more[i].now <= more[j].now;
    }
    forall n | n in Served(p, ticks) ensures n <= IntervalOf(p, t) {
      var i :| 0 <= i < |ticks| && Serves(p, ticks[i]) && IntervalOf(p, ticks[i]) == n;
      assert more[i].now <= more[|ticks|].now;
      IntMath.QuotientMonotone(ticks[i].now - p.start, t.now - p.start, p.interval);
    }
  }

  lemma {:induction false} RunKeepsUp(p: Plan, ticks: seq<Tick>)
    requires p.Runs() && p.target > 0.0 && InTime(ticks)
    ensures KeepsUp(p, TwapRun(p, ticks), Served(p, ticks))
  {
    SlicesArePositive(p);
    if ticks != [] {
      var before, t := ticks[..|ticks| - 1], ticks[|ticks| - 1];
      assert ticks == before + [t];
      ServedEarlier(p, before, t);
      ServedOneMore(p, before, t);
      RunKeepsUp(p, before);
      TickKeepsUp(p, TwapRun(p, before), Served(p, before), t);
    }
  }

  lemma {:induction false} SlicesAddUp(p: Plan, n: nat, sum: real)
    requires p.sliceSize > 0.0 && sum == n as real * p.sliceSize && sum <= p.target
    ensures Bought(p, n) == sum
  {
    if n > 0 {
      assert n as real == (n - 1) as real + 1.0;
      assert (n - 1) as real * p.sliceSize == sum - p.sliceSize;
      SlicesAddUp(p, n - 1, sum - p.sliceSize);
    }
  }

  lemma {:induction false} EnoughSlices(p: Plan, n: nat)
    requires p.Runs() && p.target > 0.0 && n >= p.slices
    ensures Bought(p, n) == p.target
    decreases n
  {
    SlicesArePositive(p);
    if n > p.slices {
      EnoughSlices(p, n - 1);
    } else {
      SlicesAddUp(p, n, n as real * p.sliceSize);
    }
  }

  /** A run buys one slice for each interval after the first in which it gets an order through, so it has
      reached its target if and only if there are as many of these as slices. */
  lemma TargetReachedIff(p: Plan, ticks: seq<Tick>)
    requires p.Runs() && p.target > 0.0 && InTime(ticks)
    ensures TwapRun(p, ticks).executed == Bought(p, |Served(p, ticks)|)
    ensures TwapRun(p, ticks).executed == p.target <==> |Served(p, ticks)| >= p.slices
  {
    RunKeepsUp(p, ticks);
    if |Served(p, ticks)| >= p.slices {
      EnoughSlices(p, |Served(p, ticks)|);
    } else {
      BoughtSoFar(p, |Served(p, ticks)|);
    }
  }

  lemma {:induction false} FirstNumbers(s: set<int>, n: nat)
    requires forall k :: 1 <= k <= n ==> k in s
    ensures |s| >= n
  {
    if n > 0 {
      FirstNumbers(s - {n}, n - 1);
    }
  }

  ghost predicate GetsThrough(p: Plan, ticks: seq<Tick>, n: int) {
    exists i :: 0 <= i < |ticks| && ticks[i].accepted && InInterval(p, ticks[i].now, n)
  }

  /** With a tick on which the engine takes orders in each of the intervals 1 to `slices`, the whole
      target is bought. */
  lemma EverySliceIsBought(p: Plan, ticks: seq<Tick>)
    requires p.Runs() && p.target > 0.0 && InTime(ticks)
    requires forall n :: 1 <= n <= p.slices ==> GetsThrough(p, ticks, n)
    ensures TwapRun(p, ticks).executed == p.target
  {
    forall n | 1 <= n <= p.slices ensures n in Served(p, ticks) {
      assert GetsThrough(p, ticks, n);
      var i :| 0 <= i < |ticks| && ticks[i].accepted && InInterval(p, ticks[i].now, n);
      IntMath.QuotientIs(ticks[i].now - p.start, p.interval, n);
      assert Serves(p, ticks[i]);
    }
    FirstNumbers(Served(p, ticks), p.slices);
    TargetReachedIff(p, ticks);
  }
}
