/** The order book simulator: two price heaps, and the orders that take liquidity from them. */
module OrderBook {
  import opened Options
  import opened RealSums
  import opened PriceHeaps
  import opened RealMath
  import opened Splits

  datatype Side = Buy | Sell

  datatype SimTrade = SimTrade(price: real, quantity: real, side: Side) {
    ghost function Money(): real {
      price * quantity
    }
  }

  /** Everything the greedy walk of `ConsumeBest` has done so far, seen from the original
      levels `s0`: `x` is what it took from each of them, and `book` is what is left. */
  ghost predicate WalkInv(s0: seq<PriceLevel>, book: multiset<PriceLevel>, x: seq<real>, filled: real, cost: real) {
    && IsSplit(s0, x, filled)
    && cost == Proceeds(s0, x)
    && book == Residual(s0, x)
  }

  /** Some split of `amount` earns `money` and leaves exactly the levels `s'`. */
  ghost predicate TakenFrom(s: seq<PriceLevel>, s': seq<PriceLevel>, amount: real, money: real) {
    exists x :: WalkInv(s, multiset(s'), x, amount, money)
  }

  /** The walk never left a dearer level for later: for every cut that lies below all prices taken
      so far, what was earned above the cut is what the excess has lost. */
  ghost predicate GreedyInv(s0: seq<PriceLevel>, s: seq<PriceLevel>, floor: real, filled: real, cost: real) {
    forall cut: real :: cut <= floor ==>
      cost == cut * filled + TotalExcess(cut, s0) - TotalExcess(cut, s)
  }

  lemma LeftInSteps(l: PriceLevel, t: real, take: real, r: PriceLevel)
    requires l.quantity - t > 0.0 && r == l.(quantity := l.quantity - t)
    ensures Left(l, t) == multiset{r} && Left(l, t + take) == Left(r, take)
  {
  }

  /** A level that is still in the book is what the walk left of some original level. */
  lemma WalkSource(s0: seq<PriceLevel>, x: seq<real>, cost: real, level: PriceLevel, take: real, cost': real)
    returns (i: nat)
    requires |x| == |s0| && level in Residual(s0, x) && take <= level.quantity && cost' == cost + level.price * take
    ensures i < |s0| && take <= s0[i].quantity - x[i] && cost' == cost + s0[i].price * take
    ensures Left(s0[i], x[i]) == multiset{level} && Left(s0[i], x[i] + take) == Left(level, take)
  {
    i := ResidualOrigin(s0, x, level);
    LeftInSteps(s0[i], x[i], take, level);
  }

  lemma WalkBook(s0: seq<PriceLevel>, book: multiset<PriceLevel>, x: seq<real>, i: nat,
                 level: PriceLevel, take: real, book': multiset<PriceLevel>)
    requires |x| == |s0| && i < |s0| && book == Residual(s0, x)
    requires Left(s0[i], x[i]) == multiset{level} && Left(s0[i], x[i] + take) == Left(level, take)
    requires book' + multiset{level} == book + Left(level, take)
    ensures book' == Residual(s0, x[i := x[i] + take])
  {
    ResidualUpdate(s0, x, i, x[i] + take);
    CancelMultiset(book', Residual(s0, x[i := x[i] + take]), multiset{level});
  }

  lemma SplitTake(s: seq<PriceLevel>, x: seq<real>, filled: real, cost: real, i: nat, take: real, cost': real)
    requires IsSplit(s, x, filled) && cost == Proceeds(s, x)
    requires i < |s| && 0.0 <= take <= s[i].quantity - x[i] && cost' == cost + s[i].price * take
    ensures IsSplit(s, x[i := x[i] + take], filled + take)
    ensures cost' == Proceeds(s, x[i := x[i] + take])
  {
    SplitUpdate(s, x, i, take);
  }

  lemma WalkStep(s0: seq<PriceLevel>, book: multiset<PriceLevel>, x: seq<real>, filled: real, cost: real,
                 level: PriceLevel, take: real, book': multiset<PriceLevel>, cost': real) returns (x': seq<real>)
    requires WalkInv(s0, book, x, filled, cost) && level in book && 0.0 <= take <= level.quantity
    requires book' + multiset{level} == book + Left(level, take) && cost' == cost + level.price * take
    ensures WalkInv(s0, book', x', filled + take, cost')
  {
    var i := WalkSource(s0, x, cost, level, take, cost');
    x' := x[i := x[i] + take];
    SplitTake(s0, x, filled, cost, i, take, cost');
    WalkBook(s0, book, x, i, level, take, book');
  }

  /** The book after `take` has been taken from its first level. */
  ghost predicate TookFromFirst(s: seq<PriceLevel>, take: real, s': seq<PriceLevel>) {
    s != [] && multiset(s') + multiset{s[0]} == multiset(s) + Left(s[0], take)
  }

  ghost function LeftSum(f: PriceLevel -> real, l: PriceLevel, take: real): real {
    if l.quantity - take > 0.0 then f(l.(quantity := l.quantity - take)) else 0.0
  }

  /** Taking from the first level changes a sum by that level's change. */
  lemma SumAfterTaking(f: PriceLevel -> real, s: seq<PriceLevel>, take: real, s': seq<PriceLevel>)
    requires TookFromFirst(s, take, s')
    ensures SumOf(f, s') == SumOf(f, s) - f(s[0]) + LeftSum(f, s[0], take)
  {
    if s[0].quantity - take > 0.0 {
      SumSwapHead(f, s, s[0].(quantity := s[0].quantity - take), s');
    } else {
      SumDropHead(f, s, s');
    }
  }

  lemma ExcessValue(cut: real, l: PriceLevel)
    requires cut <= l.price
    ensures Excess(cut)(l) == (l.price - cut) * l.quantity
  {
    if l.price == cut {
      assert (l.price - cut) * l.quantity == 0.0 * l.quantity == 0.0;
    }
  }

  lemma TakeFromProduct(p: real, q: real, take: real)
    ensures p * (q - take) - p * q == -(p * take)
    ensures take == q ==> 0.0 - p * q == -(p * take)
  {
  }

  lemma ExcessOfLevel(cut: real, l: PriceLevel, take: real)
    requires cut <= l.price && take <= l.quantity
    ensures LeftSum(Excess(cut), l, take) - Excess(cut)(l) == -((l.price - cut) * take)
  {
    ExcessValue(cut, l);
    ExcessValue(cut, l.(quantity := l.quantity - take));
    TakeFromProduct(l.price - cut, l.quantity, take);
  }

  lemma ExcessAfterTaking(cut: real, s: seq<PriceLevel>, take: real, s': seq<PriceLevel>)
    requires TookFromFirst(s, take, s') && cut <= s[0].price && take <= s[0].quantity
    ensures TotalExcess(cut, s') == TotalExcess(cut, s) - (s[0].price - cut) * take
  {
    SumAfterTaking(Excess(cut), s, take, s');
    ExcessOfLevel(cut, s[0], take);
  }

  lemma GreedyStep(s0: seq<PriceLevel>, s: seq<PriceLevel>, floor: real, filled: real, cost: real,
                   take: real, s': seq<PriceLevel>)
    requires GreedyInv(s0, s, floor, filled, cost) && TookFromFirst(s, take, s')
    requires take <= s[0].quantity && s[0].price <= floor
    ensures GreedyInv(s0, s', s[0].price, filled + take, cost + s[0].price * take)
  {
    forall cut: real | cut <= s[0].price
      ensures cost + s[0].price * take == cut * (filled + take) + TotalExcess(cut, s0) - TotalExcess(cut, s')
    {
      ExcessAfterTaking(cut, s, take, s');
      assert cut * (filled + take) == cut * filled + cut * take;
      assert (s[0].price - cut) * take == s[0].price * take - cut * take;
    }
  }

  /** A walk that ends with no level dearer than the cut has earned all a split can earn. */
  lemma GreedyIsBest(s0: seq<PriceLevel>, s: seq<PriceLevel>, floor: real, filled: real, cost: real)
    requires GreedyInv(s0, s, floor, filled, cost)
    requires forall i :: 0 <= i < |s| ==> s[i].price <= floor
    ensures NoSplitEarnsMore(s0, filled, cost)
  {
    NoExcess(s, floor);
    forall x | IsSplit(s0, x, filled)
      ensures Proceeds(s0, x) <= cost
    {
      SplitBound(s0, x, floor);
    }
  }

  /** What holds between two rounds of `ConsumeBest`; `floor` bounds every price still in the book. */
  ghost predicate ConsumeInv(s0: seq<PriceLevel>, s: seq<PriceLevel>, x: seq<real>, floor: real, filled: real,
                             cost: real) {
    && filled + TotalQuantity(s) == TotalQuantity(s0)
    && GreedyInv(s0, s, floor, filled, cost)
    && (forall i :: 0 <= i < |s| ==> s[i].price <= floor)
    && (AllPositive(s0) ==> AllPositive(s) && WalkInv(s0, multiset(s), x, filled, cost))
  }

  lemma RootBounds(s: seq<PriceLevel>)
    requires HeapOrdered(s)
    ensures forall i :: 0 <= i < |s| ==> s[i].price <= s[0].price
  {
    forall i | 0 <= i < |s|
      ensures s[i].price <= s[0].price
    {
      RootIsMax(s, i);
    }
  }

  lemma ConsumeStart(s: seq<PriceLevel>) returns (x: seq<real>)
    requires HeapOrdered(s)
    ensures ConsumeInv(s, s, x, if s == [] then 0.0 else s[0].price, 0.0, 0.0)
  {
    x := seq(|s|, i => 0.0);
    RootBounds(s);
    if AllPositive(s) {
      ResidualOfNothing(s, x);
    }
  }

  lemma WalkStepIfPositive(s0: seq<PriceLevel>, s: seq<PriceLevel>, x: seq<real>, filled: real, cost: real,
                           take: real, s': seq<PriceLevel>, cost': real) returns (x': seq<real>)
    requires AllPositive(s0) ==> AllPositive(s) && WalkInv(s0, multiset(s), x, filled, cost)
    requires TookFromFirst(s, take, s') && cost' == cost + s[0].price * take
    requires take <= s[0].quantity && (s[0].quantity > 0.0 ==> take >= 0.0)
    ensures AllPositive(s0) ==> WalkInv(s0, multiset(s'), x', filled + take, cost')
  {
    x' := x;
    if AllPositive(s0) {
      assert s[0] in multiset(s);
      x' := WalkStep(s0, multiset(s), x, filled, cost, s[0], take, multiset(s'), cost');
    }
  }

  lemma TakenKeeps(s: seq<PriceLevel>, level: PriceLevel, take: real, s': seq<PriceLevel>)
    requires multiset(s') + multiset{level} == multiset(s) + Left(level, take)
    ensures AllPositive(s) ==> AllPositive(s')
    ensures forall i :: 0 <= i < |s'| ==> s'[i] in multiset(s) + Left(level, take)
  {
    forall i | 0 <= i < |s'|
      ensures s'[i] in multiset(s) + Left(level, take)
    {
      assert s'[i] in multiset(s');
      assert s'[i] in multiset(s') + multiset{level};
    }
  }

  lemma TookKeeps(s: seq<PriceLevel>, take: real, s': seq<PriceLevel>)
    requires TookFromFirst(s, take, s') && HeapOrdered(s)
    ensures AllPositive(s) ==> AllPositive(s')
    ensures forall i :: 0 <= i < |s'| ==> s'[i].price <= s[0].price
  {
    RootBounds(s);
    TakenKeeps(s, s[0], take, s');
  }

  lemma ConsumeStep(s0: seq<PriceLevel>, s: seq<PriceLevel>, x: seq<real>, floor: real, filled: real, cost: real,
                    take: real, s': seq<PriceLevel>, cost': real) returns (x': seq<real>)
    requires ConsumeInv(s0, s, x, floor, filled, cost)
    requires HeapOrdered(s) && TookFromFirst(s, take, s')
    requires take <= s[0].quantity && (s[0].quantity > 0.0 ==> take >= 0.0) && cost' == cost + s[0].price * take
    ensures ConsumeInv(s0, s', x', s[0].price, filled + take, cost')
  {
    x' := WalkStepIfPositive(s0, s, x, filled, cost, take, s', cost');
    TookKeeps(s, take, s');
    GreedyStep(s0, s, floor, filled, cost, take, s');
    SumAfterTaking(QuantityOf, s, take, s');
  }

  lemma LoweredSlot(s: seq<PriceLevel>, i: nat, lowered: PriceLevel)
    requires HeapOrdered(s) && i < |s| && lowered.price == s[i].price
    ensures HeapOrdered(s[i := lowered])
    ensures multiset(s[i := lowered]) + multiset{s[i]} == multiset(s) + multiset{lowered}
  {
    var t := s[i := lowered];
    forall k | 1 <= k < |t|
      ensures Edge(t, k)
    {
      assert Edge(s, k);
    }
  }

  /** Lowers the quantity of the root, and pops it once nothing is left. */
  method TakeFromFirst(h: PriceHeap, take: real)
    requires HeapOrdered(h.levels) && h.levels != []
    modifies h
    ensures HeapOrdered(h.levels)
    ensures TookFromFirst(old(h.levels), take, h.levels)
    ensures |h.levels| == |old(h.levels)| - (if old(h.levels)[0].quantity - take > 0.0 then 0 else 1)
  {
    var level := h.levels[0];
    var lowered := level.(quantity := level.quantity - take);
    LoweredSlot(h.levels, 0, lowered);
    h.levels := h.levels[0 := lowered];
    if h.levels[0].quantity <= 0.0 {
      var top := h.Pop();
      CancelMultiset(multiset(h.levels) + multiset{level}, multiset(old(h.levels)), multiset{top});
    }
  }

  function Least(a: real, b: real): real {
    if a < b then a else b
  }

  /** The loop shared by both branches of `SimulateMarketOrder`. It ends for every book and every
      size, and what is filled is what the book loses. With positive quantities the order is
      filled as far as the book reaches, out of actual levels, and no other way of taking the same
      quantity from the levels moves more money. */
  method ConsumeBest(h: PriceHeap, size: real) returns (filled: real, cost: real)
    requires HeapOrdered(h.levels)
    modifies h
    ensures HeapOrdered(h.levels)
    ensures filled + TotalQuantity(h.levels) == TotalQuantity(old(h.levels))
    ensures size <= 0.0 ==> filled == cost == 0.0 && h.levels == old(h.levels)
    ensures AllPositive(old(h.levels)) ==> AllPositive(h.levels)
    ensures AllPositive(old(h.levels)) && size > 0.0 ==>
      filled == Least(size, TotalQuantity(old(h.levels)))
    ensures AllPositive(old(h.levels)) ==>
      TakenFrom(old(h.levels), h.levels, filled, cost)
    ensures NoSplitEarnsMore(old(h.levels), filled, cost)
  {
    filled, cost := 0.0, 0.0;
    var remaining := size;
    ghost var s0 := h.levels;
    ghost var x := ConsumeStart(s0);
    ghost var floor := if s0 == [] then 0.0 else s0[0].price;
    while remaining > 0.0 && |h.levels| > 0
      invariant HeapOrdered(h.levels)
      invariant ConsumeInv(s0, h.levels, x, floor, filled, cost)
      invariant filled + remaining == size && (size > 0.0 ==> remaining >= 0.0)
      invariant size <= 0.0 ==> filled == cost == 0.0 && h.levels == s0
      decreases |h.levels|, if remaining > 0.0 then 1 else 0
    {
      ghost var s := h.levels;
      var level := h.levels[0];
      var take := if remaining < level.quantity then remaining else level.quantity;
      ghost var filled0, cost0 := filled, cost;
      cost := cost + level.price * take;
      filled := filled + take;
      remaining := remaining - take;
      TakeFromFirst(h, take);
      x := ConsumeStep(s0, s, x, floor, filled0, cost0, take, h.levels, cost);
      floor := level.price;
    }
    GreedyIsBest(s0, h.levels, floor, filled, cost);
    if AllPositive(h.levels) {
      SumNonNegative(QuantityOf, h.levels);
    }
  }

  /** What a market trade `t` did to one side of the book. */
  ghost predicate MarketFill(s: seq<PriceLevel>, t: SimTrade, s': seq<PriceLevel>) {
    && t.quantity > 0.0
    && TotalQuantity(s) - TotalQuantity(s') == t.quantity
    && NoSplitEarnsMore(s, t.quantity, t.Money())
    && (AllPositive(s) ==> TakenFrom(s, s', t.quantity, t.Money()))
  }

  lemma TotalIsPositive(s: seq<PriceLevel>)
    ensures AllPositive(s) ==> if s == [] then TotalQuantity(s) == 0.0 else TotalQuantity(s) > 0.0
  {
    if s != [] && AllPositive(s) {
      SumNonNegative(QuantityOf, s[1..]);
    }
  }

  lemma Membership(s: seq<PriceLevel>, m: multiset<PriceLevel>)
    requires multiset(s) == m
    ensures forall i :: 0 <= i < |s| ==> s[i] in m
  {
    forall i | 0 <= i < |s| ensures s[i] in m { assert s[i] in multiset(s); }
  }

  /** Lowers the quantity of slot `i`, and removes it once nothing is left. */
  method TakeAt(h: PriceHeap, i: nat, size: real)
    requires HeapOrdered(h.levels) && i < |h.levels|
    modifies h
    ensures HeapOrdered(h.levels)
    ensures multiset(h.levels) + multiset{old(h.levels)[i]} == multiset(old(h.levels)) + Left(old(h.levels)[i], size)
    ensures AllPositive(old(h.levels)) ==> AllPositive(h.levels)
  {
    var level := h.levels[i];
    var lowered := level.(quantity := level.quantity - size);
    LoweredSlot(h.levels, i, lowered);
    h.levels := h.levels[i := lowered];
    if h.levels[i].quantity <= 0.0 {
      var gone := h.Remove(i);
      CancelMultiset(multiset(h.levels) + multiset{level}, multiset(old(h.levels)), multiset{gone});
    }
    TakenKeeps(old(h.levels), level, size, h.levels);
  }

  lemma FillAtAverage(s: seq<PriceLevel>, s': seq<PriceLevel>, filled: real, cost: real, t: SimTrade)
    requires filled > 0.0 && t.quantity == filled && t.price == cost / filled
    requires filled + TotalQuantity(s') == TotalQuantity(s) && NoSplitEarnsMore(s, filled, cost)
    requires AllPositive(s) ==> TakenFrom(s, s', filled, cost)
    ensures MarketFill(s, t, s')
  {
    assert t.Money() == cost;
  }

  // ----- prices after the mid price moves -----

  function PowerOf(base: real, n: nat): real {
    if n == 0 then 1.0 else base * PowerOf(base, n - 1)
  }

  /** `decimal.Round(2)`: to the nearest hundredth, halves away from zero. */
  function RoundCents(x: real): real {
    if x >= 0.0 then (x * 100.0 + 0.5).Floor as real / 100.0
    else -((-x * 100.0 + 0.5).Floor as real / 100.0)
  }

  function Impact(mid: real, i: nat): real {
    mid * 0.0001 * PowerOf(1.01, i + 1)
  }

  function BidPrice(mid: real, half: real, i: nat): real {
    RoundCents(mid - half - Impact(mid, i))
  }

  function AskPrice(mid: real, half: real, i: nat): real {
    RoundCents(mid + half + Impact(mid, i))
  }

  function BidPrices(mid: real, half: real): nat -> real {
    (i: nat) => BidPrice(mid, half, i)
  }

  function AskPrices(mid: real, half: real): nat -> real {
    (i: nat) => AskPrice(mid, half, i)
  }

  ghost function Repriced(s: seq<PriceLevel>, price: nat -> real): (t: seq<PriceLevel>)
    ensures |t| == |s|
  {
    seq(|s|, i requires 0 <= i < |s| => s[i].(price := price(i)))
  }

  lemma FloorMonotone(a: real, b: real)
    requires a <= b
    ensures a.Floor <= b.Floor
  {
  }

  lemma RoundCentsMonotone(x: real, y: real)
    requires x <= y
    ensures RoundCents(x) <= RoundCents(y)
  {
    if x >= 0.0 {
      FloorMonotone(x * 100.0 + 0.5, y * 100.0 + 0.5);
    } else if y >= 0.0 {
      FloorMonotone(0.0, -x * 100.0 + 0.5);
      FloorMonotone(0.0, y * 100.0 + 0.5);
    } else {
      FloorMonotone(-y * 100.0 + 0.5, -x * 100.0 + 0.5);
    }
  }

  lemma {:induction false} PowerGrows(i: nat, j: nat)
    requires i <= j
    ensures 0.0 < PowerOf(1.01, i) <= PowerOf(1.01, j)
    decreases j
  {
    if i < j {
      PowerGrows(i, j - 1);
    } else if j > 0 {
      PowerGrows(i - 1, j - 1);
    }
  }

  lemma ImpactGrows(mid: real, i: nat, j: nat)
    requires mid >= 0.0 && i <= j
    ensures Impact(mid, i) <= Impact(mid, j)
  {
    PowerGrows(i + 1, j + 1);
    var d := PowerOf(1.01, j + 1) - PowerOf(1.01, i + 1);
    ProductNonNegative(mid * 0.0001, d);
    assert mid * 0.0001 * d == mid * 0.0001 * PowerOf(1.01, j + 1) - mid * 0.0001 * PowerOf(1.01, i + 1);
  }

  /** Bids get cheaper and asks dearer along the slots of a repriced book. */
  lemma PricesSpreadOut(mid: real, half: real, i: nat, j: nat)
    requires mid >= 0.0 && i <= j
    ensures BidPrice(mid, half, i) >= BidPrice(mid, half, j)
    ensures AskPrice(mid, half, i) <= AskPrice(mid, half, j)
  {
    ImpactGrows(mid, i, j);
    RoundCentsMonotone(mid - half - Impact(mid, j), mid - half - Impact(mid, i));
    RoundCentsMonotone(mid + half + Impact(mid, i), mid + half + Impact(mid, j));
  }

  ghost predicate Same(s: seq<PriceLevel>, t: seq<PriceLevel>) {
    multiset(s) == multiset(t)
  }

  // ----- where the rungs stand -----

  /** How far slot `i` is from half a spread off the mid price: each slot is 1.01 times as far as the one
      before it. */
  ghost function Distance(mid: real, i: nat): real {
    if i == 0 then mid * 0.000101 else 1.01 * Distance(mid, i - 1)
  }

  ghost function ExactBids(mid: real, half: real): nat -> real {
    (i: nat) => mid - half - Distance(mid, i)
  }

  ghost function ExactAsks(mid: real, half: real): nat -> real {
    (i: nat) => mid + half + Distance(mid, i)
  }

  ghost predicate IsWhole(x: real) {
    x == x.Floor as real
  }

  /** Whole cents, and off by half a cent at most. */
  ghost predicate IsPriceFor(x: real, exact: real) {
    IsWhole(x * 100.0) && exact - 0.005 <= x <= exact + 0.005
  }

  lemma Hundredths(n: int)
    ensures n as real / 100.0 * 100.0 == n as real && (n as real).Floor == n
  {
  }

  lemma NearestHundredth(x: real, n: int)
    requires n as real <= x * 100.0 + 0.5 < n as real + 1.0
    ensures IsPriceFor(n as real / 100.0, x)
  {
    Hundredths(n);
  }

  lemma RoundCentsIsNearest(x: real)
    ensures IsPriceFor(RoundCents(x), x)
  {
    if x >= 0.0 {
      NearestHundredth(x, (x * 100.0 + 0.5).Floor);
    } else {
      var n := (-x * 100.0 + 0.5).Floor;
      NearestHundredth(-x, n);
      Hundredths(n);
      Hundredths(-n);
      assert -(n as real / 100.0) * 100.0 == (-n) as real;
    }
  }

  lemma Regroup(mid: real, power: real)
    ensures mid * 0.0001 * (1.01 * power) == 1.01 * (mid * 0.0001 * power)
  {
  }

  lemma {:induction false} DistanceIs(mid: real, i: nat)
    ensures Impact(mid, i) == Distance(mid, i)
  {
    Regroup(mid, PowerOf(1.01, i));
    if i > 0 {
      DistanceIs(mid, i - 1);
    } else {
      assert PowerOf(1.01, 1) == 1.01 * PowerOf(1.01, 0);
    }
  }

  lemma RoundsExact(mid: real, half: real, i: nat)
    ensures BidPrice(mid, half, i) == RoundCents(ExactBids(mid, half)(i))
    ensures AskPrice(mid, half, i) == RoundCents(ExactAsks(mid, half)(i))
  {
    DistanceIs(mid, i);
  }

  /** The prices of slot `i` are those of its distance, below and above the mid price. */
  lemma SlotPrices(mid: real, half: real, i: nat)
    ensures IsPriceFor(BidPrice(mid, half, i), ExactBids(mid, half)(i))
    ensures IsPriceFor(AskPrice(mid, half, i), ExactAsks(mid, half)(i))
  {
    RoundsExact(mid, half, i);
    RoundCentsIsNearest(ExactBids(mid, half)(i));
    RoundCentsIsNearest(ExactAsks(mid, half)(i));
  }

  lemma {:induction false} DistanceIsPositive(mid: real, i: nat)
    requires mid >= 0.0
    ensures Distance(mid, i) >= 0.0
  {
    if i > 0 {
      DistanceIsPositive(mid, i - 1);
    }
  }

  /** Bids stand below and asks above the mid price, by half a spread at least and by the same, but for
      rounding. */
  lemma QuotesSurroundMid(mid: real, half: real, i: nat, bid: real, ask: real)
    requires IsPriceFor(bid, ExactBids(mid, half)(i)) && IsPriceFor(ask, ExactAsks(mid, half)(i))
    ensures 2.0 * mid - 0.01 <= bid + ask <= 2.0 * mid + 0.01
    ensures mid >= 0.0 ==> bid <= mid - half + 0.005 && ask >= mid + half - 0.005
  {
    if mid >= 0.0 {
      DistanceIsPositive(mid, i);
    }
  }

  /** Slot by slot, `t` is `was` at other prices: each is the price for its slot. */
  ghost predicate InSlots(t: seq<PriceLevel>, was: seq<PriceLevel>, exact: nat -> real) {
    && |t| == |was|
    && forall i :: 0 <= i < |t| ==>
      t[i].quantity == was[i].quantity && t[i].orders == was[i].orders && IsPriceFor(t[i].price, exact(i))
  }

  /** Bid and ask of a slot stand around the mid price, but for a cent. */
  ghost predicate IsBalanced(b: seq<PriceLevel>, a: seq<PriceLevel>, mid: real) {
    forall i :: 0 <= i < |b| && i < |a| ==> 2.0 * mid - 0.01 <= b[i].price + a[i].price <= 2.0 * mid + 0.01
  }

  /** Every level keeps half a spread off the mid price. */
  ghost predicate KeepsOff(b: seq<PriceLevel>, a: seq<PriceLevel>, mid: real, half: real) {
    && (forall i :: 0 <= i < |b| ==> b[i].price <= mid - half + 0.005)
    && (forall i :: 0 <= i < |a| ==> a[i].price >= mid + half - 0.005)
  }

  /** The levels are those of `b0` and `a0`, repriced around the mid price. */
  ghost predicate Requoted(b: seq<PriceLevel>, a: seq<PriceLevel>, b0: seq<PriceLevel>, a0: seq<PriceLevel>,
                           mid: real, half: real) {
    && (exists b1, a1 :: Same(b, b1) && Same(a, a1) && IsBalanced(b1, a1, mid)
                         && InSlots(b1, b0, ExactBids(mid, half)) && InSlots(a1, a0, ExactAsks(mid, half)))
    && (mid >= 0.0 ==> KeepsOff(b, a, mid, half))
  }

  lemma SlotsAreBalanced(b: seq<PriceLevel>, a: seq<PriceLevel>, mid: real, half: real)
    requires forall i :: 0 <= i < |b| ==> IsPriceFor(b[i].price, ExactBids(mid, half)(i))
    requires forall i :: 0 <= i < |a| ==> IsPriceFor(a[i].price, ExactAsks(mid, half)(i))
    ensures IsBalanced(b, a, mid)
  {
    forall i | 0 <= i < |b| && i < |a|
      ensures 2.0 * mid - 0.01 <= b[i].price + a[i].price <= 2.0 * mid + 0.01
    {
      QuotesSurroundMid(mid, half, i, b[i].price, a[i].price);
    }
  }

  lemma SlotsKeepOff(b: seq<PriceLevel>, a: seq<PriceLevel>, b1: seq<PriceLevel>, a1: seq<PriceLevel>,
                     mid: real, half: real)
    requires mid >= 0.0 && Same(b, b1) && Same(a, a1)
    requires forall i :: 0 <= i < |b1| ==> IsPriceFor(b1[i].price, ExactBids(mid, half)(i))
    requires forall i :: 0 <= i < |a1| ==> IsPriceFor(a1[i].price, ExactAsks(mid, half)(i))
    ensures KeepsOff(b, a, mid, half)
  {
    forall i | 0 <= i < |b| ensures b[i].price <= mid - half + 0.005 {
      assert b[i] in multiset(b1);
      var k :| 0 <= k < |b1| && b1[k] == b[i];
      DistanceIsPositive(mid, k);
    }
    forall i | 0 <= i < |a| ensures a[i].price >= mid + half - 0.005 {
      assert a[i] in multiset(a1);
      var k :| 0 <= k < |a1| && a1[k] == a[i];
      DistanceIsPositive(mid, k);
    }
  }

  lemma RepricedInSlots(b0: seq<PriceLevel>, a0: seq<PriceLevel>, mid: real, half: real)
    ensures InSlots(Repriced(b0, BidPrices(mid, half)), b0, ExactBids(mid, half))
    ensures InSlots(Repriced(a0, AskPrices(mid, half)), a0, ExactAsks(mid, half))
  {
    forall i: nat
      ensures IsPriceFor(BidPrices(mid, half)(i), ExactBids(mid, half)(i))
      ensures IsPriceFor(AskPrices(mid, half)(i), ExactAsks(mid, half)(i))
    {
      SlotPrices(mid, half, i);
    }
  }

  /** What `UpdateMidPrice` leaves: every level stands at the price for its slot. */
  lemma RepricedIsRequoted(b: seq<PriceLevel>, a: seq<PriceLevel>, b0: seq<PriceLevel>, a0: seq<PriceLevel>,
                           mid: real, half: real)
    requires Same(b, Repriced(b0, BidPrices(mid, half))) && Same(a, Repriced(a0, AskPrices(mid, half)))
    ensures Requoted(b, a, b0, a0, mid, half)
  {
    var b1, a1 := Repriced(b0, BidPrices(mid, half)), Repriced(a0, AskPrices(mid, half));
    RepricedInSlots(b0, a0, mid, half);
    SlotsAreBalanced(b1, a1, mid, half);
    if mid >= 0.0 {
      SlotsKeepOff(b, a, b1, a1, mid, half);
    }
  }

  /** The root of a heap is the dearest level of any sequence with the same levels. */
  lemma RootOfPermutation(s: seq<PriceLevel>, t: seq<PriceLevel>, k: nat)
    requires HeapOrdered(s) && multiset(s) == multiset(t) && k < |t|
    requires forall i :: 0 <= i < |t| ==> t[i].price <= t[k].price
    ensures s != [] && s[0].price == t[k].price
  {
    assert t[k] in multiset(s);
    RootBounds(s);
    assert s[0] in multiset(t);
  }

  lemma RepricedRoots(b0: seq<PriceLevel>, b: seq<PriceLevel>, a0: seq<PriceLevel>, a: seq<PriceLevel>,
                      mid: real, half: real)
    requires mid >= 0.0 && HeapOrdered(b) && HeapOrdered(a)
    requires Same(b, Repriced(b0, BidPrices(mid, half))) && Same(a, Repriced(a0, AskPrices(mid, half)))
    ensures |b| == |b0| && |a| == |a0|
    ensures b != [] ==> b[0].price == BidPrice(mid, half, 0)
    ensures a != [] ==> a[0].price == AskPrice(mid, half, |a| - 1)
  {
    var b1, a1 := Repriced(b0, BidPrices(mid, half)), Repriced(a0, AskPrices(mid, half));
    assert |multiset(b)| == |b1| && |multiset(a)| == |a1|;
    if b != [] {
      forall i | 0 <= i < |b1|
        ensures b1[i].price <= b1[0].price
      {
        PricesSpreadOut(mid, half, 0, i);
      }
      RootOfPermutation(b, b1, 0);
    }
    if a != [] {
      forall i | 0 <= i < |a1|
        ensures a1[i].price <= a1[|a1| - 1].price
      {
        PricesSpreadOut(mid, half, i, |a1| - 1);
      }
      RootOfPermutation(a, a1, |a1| - 1);
    }
  }

  /** `decimal.Round(6)` of a quantity that is not negative. */
  function RoundMicro(x: real): real {
    (x * 1000000.0 + 0.5).Floor as real / 1000000.0
  }

  /** The level a new book has in slot `i`. */
  function Rung(price: nat -> real, i: nat): PriceLevel {
    PriceLevel(price(i), RoundMicro(0.1 * PowerOf(1.01, i + 1)), if i < 2 then 1 else (i + 1) / 2)
  }

  ghost function Ladder(price: nat -> real, depth: nat): (s: seq<PriceLevel>)
    ensures |s| == depth
  {
    seq(depth, i requires 0 <= i < depth => Rung(price, i))
  }

  /** The size of rung `i`: each is 1.01 times the one before it. */
  ghost function Size(i: nat): real {
    if i == 0 then 0.101 else 1.01 * Size(i - 1)
  }

  /** Whole millionths, off by half of one at most; and one order for two rungs, but at least one. */
  ghost predicate IsSizedFor(level: PriceLevel, i: nat) {
    && IsWhole(level.quantity * 1000000.0) && Size(i) - 0.0000005 <= level.quantity <= Size(i) + 0.0000005
    && (if i == 0 then level.orders == 1 else 2 * level.orders == i + 1 || 2 * level.orders == i)
  }

  lemma {:induction false} SizeIs(i: nat)
    ensures 0.1 * PowerOf(1.01, i + 1) == Size(i) > 0.0
  {
    if i > 0 {
      SizeIs(i - 1);
    } else {
      assert PowerOf(1.01, 1) == 1.01 * PowerOf(1.01, 0);
    }
  }

  lemma RungIsSized(price: nat -> real, i: nat)
    ensures IsSizedFor(Rung(price, i), i)
  {
    SizeIs(i);
  }

  /** One rung a slot, with the size and the price for its slot. */
  ghost predicate IsLadder(t: seq<PriceLevel>, depth: nat, exact: nat -> real) {
    |t| == depth && forall i :: 0 <= i < depth ==> IsSizedFor(t[i], i) && IsPriceFor(t[i].price, exact(i))
  }

  lemma RungIsPositive(price: nat -> real, i: nat)
    ensures Rung(price, i).quantity > 0.0
  {
    PowerGrows(0, i + 1);
  }

  /** A new book: one level a rung on either side, and the best bid on top of its heap. */
  ghost predicate NewBook(b: seq<PriceLevel>, a: seq<PriceLevel>, mid: real, half: real, depth: nat) {
    && Same(b, Ladder(BidPrices(mid, half), depth)) && Same(a, Ladder(AskPrices(mid, half), depth))
    && |b| == |a| == depth
    && (mid >= 0.0 && depth > 0 ==>
          b[0].price == BidPrice(mid, half, 0) && a[0].price == AskPrice(mid, half, depth - 1))
  }

  /** Two ladders around the mid price. */
  ghost predicate Rises(b: seq<PriceLevel>, a: seq<PriceLevel>, mid: real, half: real, depth: nat) {
    && (exists b1, a1 :: Same(b, b1) && Same(a, a1) && IsBalanced(b1, a1, mid)
                         && IsLadder(b1, depth, ExactBids(mid, half)) && IsLadder(a1, depth, ExactAsks(mid, half)))
    && (mid >= 0.0 ==> KeepsOff(b, a, mid, half))
  }

  /** What the constructor leaves: a ladder on either side, of the prices and sizes for its slots. */
  lemma NewBookRises(b: seq<PriceLevel>, a: seq<PriceLevel>, mid: real, half: real, depth: nat)
    requires NewBook(b, a, mid, half, depth)
    ensures Rises(b, a, mid, half, depth)
  {
    var b1, a1 := Ladder(BidPrices(mid, half), depth), Ladder(AskPrices(mid, half), depth);
    forall i | 0 <= i < depth
      ensures IsSizedFor(b1[i], i) && IsPriceFor(b1[i].price, ExactBids(mid, half)(i))
      ensures IsSizedFor(a1[i], i) && IsPriceFor(a1[i].price, ExactAsks(mid, half)(i))
    {
      RungIsSized(BidPrices(mid, half), i);
      RungIsSized(AskPrices(mid, half), i);
      SlotPrices(mid, half, i);
    }
    SlotsAreBalanced(b1, a1, mid, half);
    if mid >= 0.0 {
      SlotsKeepOff(b, a, b1, a1, mid, half);
    }
  }

  lemma LadderRoots(b: seq<PriceLevel>, a: seq<PriceLevel>, mid: real, half: real, depth: nat)
    requires HeapOrdered(b) && HeapOrdered(a)
    requires Same(b, Ladder(BidPrices(mid, half), depth)) && Same(a, Ladder(AskPrices(mid, half), depth))
    ensures NewBook(b, a, mid, half, depth)
  {
    var b0, a0 := Ladder(BidPrices(mid, half), depth), Ladder(AskPrices(mid, half), depth);
    assert |multiset(b)| == |b0| && |multiset(a)| == |a0|;
    if mid >= 0.0 {
      assert Repriced(b0, BidPrices(mid, half)) == b0 && Repriced(a0, AskPrices(mid, half)) == a0;
      RepricedRoots(b0, b, a0, a, mid, half);
    }
  }

  lemma LadderIsPositive(s: seq<PriceLevel>, price: nat -> real, depth: nat)
    requires Same(s, Ladder(price, depth))
    ensures AllPositive(s)
  {
    var t := Ladder(price, depth);
    forall i | 0 <= i < depth ensures t[i].quantity > 0.0 {
      RungIsPositive(price, i);
    }
    Membership(s, multiset(t));
  }

  /** Pushes one rung after the other onto both heaps. */
  method FillLadders(bids: PriceHeap, asks: PriceHeap, bidPrice: nat -> real, askPrice: nat -> real, depth: nat)
    requires bids != asks && bids.levels == asks.levels == []
    modifies bids, asks
    ensures HeapOrdered(bids.levels) && HeapOrdered(asks.levels)
    ensures Same(bids.levels, Ladder(bidPrice, depth)) && Same(asks.levels, Ladder(askPrice, depth))
    ensures AllPositive(bids.levels) && AllPositive(asks.levels)
  {
    for i := 0 to depth
      invariant HeapOrdered(bids.levels) && HeapOrdered(asks.levels)
      invariant Same(bids.levels, Ladder(bidPrice, i)) && Same(asks.levels, Ladder(askPrice, i))
    {
      assert Ladder(bidPrice, i + 1) == Ladder(bidPrice, i) + [Rung(bidPrice, i)];
      assert Ladder(askPrice, i + 1) == Ladder(askPrice, i) + [Rung(askPrice, i)];
      bids.Push(Rung(bidPrice, i));
      asks.Push(Rung(askPrice, i));
    }
    bids.Init();
    asks.Init();
    LadderIsPositive(bids.levels, bidPrice, depth);
    LadderIsPositive(asks.levels, askPrice, depth);
  }

  /** Gives every slot the price that belongs to it and restores the heap. */
  method Reprice(h: PriceHeap, price: nat -> real)
    modifies h
    ensures HeapOrdered(h.levels)
    ensures Same(h.levels, Repriced(old(h.levels), price))
    ensures AllPositive(old(h.levels)) ==> AllPositive(h.levels)
  {
    for i := 0 to |h.levels|
      invariant |h.levels| == |old(h.levels)|
      invariant forall k :: 0 <= k < i ==> h.levels[k] == old(h.levels)[k].(price := price(k))
      invariant forall k :: i <= k < |h.levels| ==> h.levels[k] == old(h.levels)[k]
    {
      h.levels := h.levels[i := h.levels[i].(price := price(i))];
    }
    assert h.levels == Repriced(old(h.levels), price);
    ghost var t := h.levels;
    h.Init();
    Membership(h.levels, multiset(t));
  }

  class OrderBookSimulator {
    const bids: PriceHeap
    const asks: PriceHeap
    var trades: seq<SimTrade>
    var lastPrice: real
    var midPrice: real
    const spread: real
    const volatility: real

    ghost predicate Valid()
      reads this, bids, asks
    {
      bids != asks && HeapOrdered(bids.levels) && HeapOrdered(asks.levels)
    }

    ghost predicate Liquid()
      reads bids, asks
    {
      AllPositive(bids.levels) && AllPositive(asks.levels)
    }

    /** The heap that an incoming order of this side takes from. */
    function Opposite(side: Side): PriceHeap {
      if side == Buy then asks else bids
    }

    function Own(side: Side): PriceHeap {
      if side == Buy then bids else asks
    }

    method InitializeOrderBook(depth: nat)
      requires bids != asks && bids.levels == asks.levels == []
      modifies bids, asks
      ensures Valid() && Liquid()
      ensures NewBook(bids.levels, asks.levels, midPrice, spread / 2.0, depth)
    {
      var mid, half := midPrice, spread / 2.0;
      FillLadders(bids, asks, BidPrices(mid, half), AskPrices(mid, half), depth);
      LadderRoots(bids.levels, asks.levels, mid, half, depth);
    }

    constructor (initialMid: real, spreadBps: int, volatilityBps: int, depth: nat)
      ensures Valid() && Liquid() && fresh(bids) && fresh(asks)
      ensures trades == [] && midPrice == lastPrice == if initialMid == 0.0 then 44000.0 else initialMid
      ensures spread == midPrice * spreadBps as real / 10000.0
      ensures volatility == midPrice * volatilityBps as real / 10000.0
      ensures NewBook(bids.levels, asks.levels, midPrice, spread / 2.0, depth)
    {
      var mid := if initialMid == 0.0 then 44000.0 else initialMid;
      bids := new PriceHeap();
      asks := new PriceHeap();
      trades := [];
      lastPrice := mid;
      midPrice := mid;
      spread := mid * spreadBps as real / 10000.0;
      volatility := mid * volatilityBps as real / 10000.0;
      new;
      InitializeOrderBook(depth);
    }

    method GetBestBid() returns (best: real)
      requires Valid()
      ensures bids.levels == [] ==> best == 0.0
      ensures bids.levels != [] ==> exists i :: 0 <= i < |bids.levels| && bids.levels[i].price == best
      ensures forall i :: 0 <= i < |bids.levels| ==> bids.levels[i].price <= best
    {
      RootBounds(bids.levels);
      best := if |bids.levels| == 0 then 0.0 else bids.levels[0].price;
    }

    /** The ask heap is ordered like the bid heap, so what is reported is the highest ask: it is
        the lowest one only if all asks stand at one price. */
    method GetBestAsk() returns (best: real)
      requires Valid()
      ensures asks.levels == [] ==> best == 0.0
      ensures asks.levels != [] ==> exists i :: 0 <= i < |asks.levels| && asks.levels[i].price == best
      ensures forall i :: 0 <= i < |asks.levels| ==> asks.levels[i].price <= best
      ensures (forall i :: 0 <= i < |asks.levels| ==> best <= asks.levels[i].price) <==> OnePrice(asks.levels)
    {
      RootBounds(asks.levels);
      best := if |asks.levels| == 0 then 0.0 else asks.levels[0].price;
    }

    method AddLiquidity(side: Side, price: real, size: real)
      requires Valid()
      modifies Own(side)
      ensures Valid()
      ensures if side == Buy then asks.levels == old(asks.levels) else bids.levels == old(bids.levels)
      ensures multiset(Own(side).levels) == multiset(old(Own(side).levels)) + multiset{PriceLevel(price, size, 1)}
      ensures AllPositive(old(Own(side).levels)) && size > 0.0 ==> AllPositive(Own(side).levels)
    {
      var h := Own(side);
      h.Push(PriceLevel(price, size, 1));
      Membership(h.levels, multiset(old(h.levels)) + multiset{PriceLevel(price, size, 1)});
    }

    /** Takes from the first slot that stands at exactly this price, and only from that one. */
    method RemoveLiquidity(side: Side, price: real, size: real) returns (ghost at: int)
      requires Valid()
      modifies Own(side)
      ensures Valid()
      ensures if side == Buy then asks.levels == old(asks.levels) else bids.levels == old(bids.levels)
      ensures at == -1 ==>
        && Own(side).levels == old(Own(side).levels)
        && forall i :: 0 <= i < |Own(side).levels| ==> Own(side).levels[i].price != price
      ensures at != -1 ==>
        && 0 <= at < |old(Own(side).levels)|
        && old(Own(side).levels)[at].price == price
        && (forall i :: 0 <= i < at ==> old(Own(side).levels)[i].price != price)
        && multiset(Own(side).levels) + multiset{old(Own(side).levels)[at]}
           == multiset(old(Own(side).levels)) + Left(old(Own(side).levels)[at], size)
      ensures AllPositive(old(Own(side).levels)) ==> AllPositive(Own(side).levels)
    {
      var h := Own(side);
      at := -1;
      var i := 0;
      while i < |h.levels|
        invariant 0 <= i <= |h.levels| && at == -1 && h.levels == old(h.levels)
        invariant forall k :: 0 <= k < i ==> h.levels[k].price != price
      {
        if h.levels[i].price == price {
          at := i;
          TakeAt(h, i, size);
          break;
        }
        i := i + 1;
      }
    }

    /** The mid price moves by a random amount and every level gets a price from its slot. */
    method UpdateMidPrice(draw: real)
      requires Valid()
      modifies this, bids, asks
      ensures Valid() && midPrice >= 1.0
      ensures var mid := old(midPrice) + (draw - 0.5) * 2.0 * volatility;
              midPrice == if mid < 1.0 then 1.0 else mid
      ensures Same(bids.levels, Repriced(old(bids.levels), BidPrices(midPrice, spread / 2.0)))
      ensures Same(asks.levels, Repriced(old(asks.levels), AskPrices(midPrice, spread / 2.0)))
      ensures bids.levels != [] ==> bids.levels[0].price == BidPrice(midPrice, spread / 2.0, 0)
      ensures asks.levels != [] ==> asks.levels[0].price == AskPrice(midPrice, spread / 2.0, |asks.levels| - 1)
      ensures trades == old(trades) && lastPrice == old(lastPrice)
      ensures old(Liquid()) ==> Liquid()
    {
      midPrice := midPrice + (draw - 0.5) * 2.0 * volatility;
      if midPrice < 1.0 {
        midPrice := 1.0;
      }
      var mid, half := midPrice, spread / 2.0;
      Reprice(bids, BidPrices(mid, half));
      Reprice(asks, AskPrices(mid, half));
      RepricedRoots(old(bids.levels), bids.levels, old(asks.levels), asks.levels, mid, half);
    }

    /** A limit order trades with the best opposite level only, and only if it crosses it. The
        trade always reports the full size: that much really leaves the book if and only if the
        level holds it. */
    method SimulateLimitOrder(side: Side, price: real, size: real) returns (trade: Option<SimTrade>)
      requires Valid()
      modifies this, Opposite(side)
      ensures Valid() && midPrice == old(midPrice)
      ensures if side == Buy then bids.levels == old(bids.levels) else asks.levels == old(asks.levels)
      ensures AllPositive(old(Opposite(side).levels)) ==> AllPositive(Opposite(side).levels)
      ensures var s := old(Opposite(side).levels);
        if s != [] && (if side == Buy then price >= s[0].price else price <= s[0].price) then
          && trade == Some(SimTrade(s[0].price, size, side))
          && trades == old(trades) + [trade.value] && lastPrice == s[0].price
          && TookFromFirst(s, size, Opposite(side).levels)
          && (size <= s[0].quantity <==>
                TotalQuantity(s) - TotalQuantity(Opposite(side).levels) == trade.value.quantity)
        else
          && trade == None && trades == old(trades) && lastPrice == old(lastPrice) && Opposite(side).levels == s
    {
      var h := Opposite(side);
      trade := None;
      if |h.levels| > 0 && (if side == Buy then price >= h.levels[0].price else price <= h.levels[0].price) {
        var fillPrice := h.levels[0].price;
        TakeFromFirst(h, size);
        TookKeeps(old(h.levels), size, h.levels);
        SumAfterTaking(QuantityOf, old(h.levels), size, h.levels);
        var t := SimTrade(fillPrice, size, side);
        trades := trades + [t];
        lastPrice := fillPrice;
        trade := Some(t);
      }
    }

    /** A market order is filled as far as the opposite side reaches, out of actual levels, and
        moves the most money any split of that quantity over the levels could move: the best
        outcome for a seller, the dearest one for a buyer. */
    method SimulateMarketOrder(side: Side, size: real) returns (trade: Option<SimTrade>)
      requires Valid()
      modifies this, Opposite(side)
      ensures Valid() && midPrice == old(midPrice)
      ensures if side == Buy then bids.levels == old(bids.levels) else asks.levels == old(asks.levels)
      ensures trade.None? ==> trades == old(trades) && lastPrice == old(lastPrice)
      ensures trade.Some? ==>
        trades == old(trades) + [trade.value] && lastPrice == trade.value.price && trade.value.side == side
      ensures size <= 0.0 ==> trade == None && Opposite(side).levels == old(Opposite(side).levels)
      ensures trade.Some? ==> MarketFill(old(Opposite(side).levels), trade.value, Opposite(side).levels)
      ensures AllPositive(old(Opposite(side).levels)) ==>
        && AllPositive(Opposite(side).levels)
        && (trade.Some? <==> size > 0.0 && old(Opposite(side).levels) != [])
        && (trade.Some? ==> trade.value.quantity == Least(size, TotalQuantity(old(Opposite(side).levels))))
    {
      var h := Opposite(side);
      ghost var s := h.levels;
      var filled, cost := ConsumeBest(h, size);
      trade := None;
      TotalIsPositive(s);
      if filled > 0.0 {
        var avg := cost / filled;
        var t := SimTrade(avg, filled, side);
        FillAtAverage(s, h.levels, filled, cost, t);
        trades := trades + [t];
        lastPrice := avg;
        trade := Some(t);
      }
    }
  }

  /** A market buy pays the most. It also pays the least exactly when it is for the whole side or
      more, or finds one price. */
  lemma MarketBuyIsCheapestIff(s: seq<PriceLevel>, size: real, t: SimTrade, s': seq<PriceLevel>)
    requires AllPositive(s) && MarketFill(s, t, s') && t.quantity == Least(size, TotalQuantity(s))
    ensures NoSplitEarnsLess(s, t.quantity, t.Money()) <==> size >= TotalQuantity(s) || OnePrice(s)
  {
    var x :| WalkInv(s, multiset(s'), x, t.quantity, t.Money());
    SplitWithinTotal(s, x);
    DearestIsCheapestIff(s, t.quantity, t.Money());
  }

  // ----- orders on which the ask side misleads -----

  const NEAR := PriceLevel(100.0, 1.0, 1)
  const FAR := PriceLevel(101.0, 1.0, 1)

  lemma TwoLevels(s: seq<PriceLevel>)
    requires HeapOrdered(s) && multiset(s) == multiset{NEAR, FAR}
    ensures s == [FAR, NEAR]
  {
    assert |s| == |multiset(s)| == 2;
    assert s == [s[0], s[1]];
    assert s[0] in multiset(s) && s[1] in multiset(s);
    assert Edge(s, 1);
    assert NEAR in multiset(s) && FAR in multiset(s);
  }

  /** A book with one ask at 100 and one at 101, and no bids. */
  method TwoAsks() returns (book: OrderBookSimulator)
    ensures fresh(book) && fresh(book.bids) && fresh(book.asks) && book.Valid()
    ensures book.asks.levels == [FAR, NEAR]
  {
    book := new OrderBookSimulator(0.0, 0, 0, 0);
    book.AddLiquidity(Sell, 100.0, 1.0);
    book.AddLiquidity(Sell, 101.0, 1.0);
    TwoLevels(book.asks.levels);
  }

  lemma TwoLevelSplit(x: seq<real>)
    requires |x| == 2
    ensures Amount(x) == x[0] + x[1] && Proceeds([FAR, NEAR], x) == 101.0 * x[0] + 100.0 * x[1]
  {
    assert [FAR, NEAR][1..] == [NEAR] && x[1..] == [x[1]];
    assert Amount(x[1..]) == x[1] && Proceeds([NEAR], x[1..]) == 100.0 * x[1];
  }

  lemma HalfUnit(t: SimTrade, s': seq<PriceLevel>)
    requires MarketFill([FAR, NEAR], t, s') && t.quantity == 0.5
    ensures t.price == 101.0 && !NoSplitEarnsLess([FAR, NEAR], 0.5, t.Money())
  {
    var s := [FAR, NEAR];
    var x :| WalkInv(s, multiset(s'), x, t.quantity, t.Money());
    TwoLevelSplit(x);
    TwoLevelSplit([0.5, 0.0]);
    TwoLevelSplit([0.0, 0.5]);
  }

  lemma TwoLevelTotal()
    ensures TotalQuantity([NEAR]) == 1.0 && TotalQuantity([FAR, NEAR]) == 2.0
  {
    assert [FAR, NEAR][1..] == [NEAR] && [NEAR][1..] == [];
    assert SumOf(QuantityOf, [NEAR]) == QuantityOf(NEAR) + SumOf(QuantityOf, []);
  }

  /** The reported best ask is 101, and buying half a unit costs 101 a unit, with 100 on offer. */
  method BuyAtTheFarAsk() returns (best: real, trade: Option<SimTrade>)
    ensures best == 101.0
    ensures trade.Some? && trade.value.quantity == 0.5 && trade.value.price == 101.0
    ensures !NoSplitEarnsLess([FAR, NEAR], 0.5, trade.value.Money())
  {
    var book := TwoAsks();
    best := book.GetBestAsk();
    trade := book.SimulateMarketOrder(Buy, 0.5);
    TwoLevelTotal();
    HalfUnit(trade.value, book.asks.levels);
  }

  /** A limit order for five units reports five, out of a book that holds two. */
  method LimitOverreports() returns (trade: Option<SimTrade>)
    ensures trade == Some(SimTrade(101.0, 5.0, Buy)) && trade.value.quantity > TotalQuantity([FAR, NEAR])
  {
    var book := TwoAsks();
    trade := book.SimulateLimitOrder(Buy, 101.0, 5.0);
    TwoLevelTotal();
  }

  // ----- where the levels stand -----

  /** A new book is two ladders around its mid price. */
  method NewMarket(initialMid: real, spreadBps: int, volatilityBps: int, depth: nat)
    returns (book: OrderBookSimulator)
    ensures fresh(book) && Rises(book.bids.levels, book.asks.levels, book.midPrice, book.spread / 2.0, depth)
  {
    book := new OrderBookSimulator(initialMid, spreadBps, volatilityBps, depth);
    NewBookRises(book.bids.levels, book.asks.levels, book.midPrice, book.spread / 2.0, depth);
  }

  /** After a move of the mid price, every level stands at the price for its slot. */
  method MoveMarket(book: OrderBookSimulator, draw: real)
    requires book.Valid()
    modifies book, book.bids, book.asks
    ensures Requoted(book.bids.levels, book.asks.levels, old(book.bids.levels), old(book.asks.levels),
                     book.midPrice, book.spread / 2.0)
  {
    book.UpdateMidPrice(draw);
    RepricedIsRequoted(book.bids.levels, book.asks.levels, old(book.bids.levels), old(book.asks.levels),
                       book.midPrice, book.spread / 2.0);
  }

  // ----- whole sessions -----

  datatype Op =
    | Add(side: Side, price: real, size: real)
    | Remove(side: Side, price: real, size: real)
    | MoveMid(draw: real)
    | Limit(side: Side, price: real, size: real)
    | Market(side: Side, size: real)

  /** Any sequence of operations, with positive sizes added, leaves two heaps of positive levels;
      so the best bid reported afterwards is the highest bid there is. */
  method Session(book: OrderBookSimulator, ops: seq<Op>) returns (bestBid: real)
    requires book.Valid() && book.Liquid()
    requires forall i :: 0 <= i < |ops| && ops[i].Add? ==> ops[i].size > 0.0
    modifies book, book.bids, book.asks
    ensures book.Valid() && book.Liquid()
    ensures forall i :: 0 <= i < |book.bids.levels| ==> book.bids.levels[i].price <= bestBid
    ensures book.bids.levels != [] ==> exists i :: 0 <= i < |book.bids.levels| && book.bids.levels[i].price == bestBid
  {
    for i := 0 to |ops|
      invariant book.Valid() && book.Liquid()
    {
      match ops[i]
      case Add(side, price, size) => book.AddLiquidity(side, price, size);
      case Remove(side, price, size) => var _ := book.RemoveLiquidity(side, price, size);
      case MoveMid(draw) => book.UpdateMidPrice(draw);
      case Limit(side, price, size) => var _ := book.SimulateLimitOrder(side, price, size);
      case Market(side, size) => var _ := book.SimulateMarketOrder(side, size);
    }
    bestBid := book.GetBestBid();
  }
}
