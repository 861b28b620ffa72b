/** What the core engine does with a filled order: statistics, balances and positions. */
module FillAccounting {
  import opened RealMath

  datatype Side = Buy | Sell

  datatype Order = Order(symbol: string, side: Side, filledQuantity: real, avgFillPrice: real, commission: real)

  datatype Balance = Balance(asset: string, free: real, locked: real)

  datatype PositionSide = NoSide | Long

  datatype Position = Position(symbol: string, side: PositionSide, quantity: real, avgEntryPrice: real)

  datatype Stats = Stats(totalTrades: int, totalVolume: real, totalFees: real)

  type Balances = map<string, Balance>
  type Positions = map<string, Position>

  function Held(positions: Positions, s: string): real {
    if s in positions then positions[s].quantity else 0.0
  }

  function Free(balances: Balances, asset: string): real {
    if asset in balances then balances[asset].free else 0.0
  }

  /** A buy divides by the new quantity, which must not be zero. */
  predicate CanFill(positions: Positions, o: Order) {
    o.side == Buy ==> Held(positions, o.symbol) + o.filledQuantity != 0.0
  }

  function BalanceAfter(balances: Balances, asset: string, amount: real, subtract: bool): Balances {
    var b := if asset in balances then balances[asset] else Balance(asset, 0.0, 0.0);
    balances[asset := b.(free := if subtract then b.free - amount else b.free + amount)]
  }

  function BuyAverage(avg: real, quantity: real, price: real, bought: real): real
    requires quantity + bought != 0.0
  {
    (avg * quantity + price * bought) / (quantity + bought)
  }

  function PositionsAfter(positions: Positions, o: Order): Positions
    requires CanFill(positions, o)
  {
    var p := if o.symbol in positions then positions[o.symbol] else Position(o.symbol, NoSide, 0.0, 0.0);
    if o.side == Buy then
      var avg := BuyAverage(p.avgEntryPrice, p.quantity, o.avgFillPrice, o.filledQuantity);
      positions[o.symbol := p.(quantity := p.quantity + o.filledQuantity, avgEntryPrice := avg, side := Long)]
    else
      var quantity := p.quantity - o.filledQuantity;
      if quantity == 0.0 then positions - {o.symbol} else positions[o.symbol := p.(quantity := quantity)]
  }

  datatype Books = Books(stats: Stats, balances: Balances, positions: Positions)

  const EMPTY := Books(Stats(0, 0.0, 0.0), map[], map[])

  function BooksAfter(b: Books, o: Order): Books
    requires CanFill(b.positions, o)
  {
    Books(Stats(b.stats.totalTrades + 1, b.stats.totalVolume + o.filledQuantity, b.stats.totalFees + o.commission),
          BalanceAfter(b.balances, o.symbol, o.filledQuantity, o.side == Sell),
          PositionsAfter(b.positions, o))
  }

  class Engine {
    var stats: Stats
    var balances: Balances
    var positions: Positions

    function Snapshot(): Books
      reads this
    {
      Books(stats, balances, positions)
    }

    constructor ()
      ensures Snapshot() == EMPTY
    {
      stats := Stats(0, 0.0, 0.0);
      balances := map[];
      positions := map[];
    }

    method UpdateBalance(asset: string, amount: real, subtract: bool)
      modifies this`balances
      ensures balances == BalanceAfter(old(balances), asset, amount, subtract)
    {
      if asset !in balances {
        balances := balances[asset := Balance(asset, 0.0, 0.0)];
      }
      var balance := balances[asset];
      if subtract {
        balances := balances[asset := balance.(free := balance.free - amount)];
      } else {
        balances := balances[asset := balance.(free := balance.free + amount)];
      }
    }

    method UpdateFromOrder(o: Order)
      requires CanFill(positions, o)
      modifies this`positions
      ensures positions == PositionsAfter(old(positions), o)
    {
      if o.symbol !in positions {
        positions := positions[o.symbol := Position(o.symbol, NoSide, 0.0, 0.0)];
      }
      var pos := positions[o.symbol];
      if o.side == Buy {
        var totalQty := pos.quantity + o.filledQuantity;
        var totalCost := pos.avgEntryPrice * pos.quantity + o.avgFillPrice * o.filledQuantity;
        assert totalCost / totalQty == BuyAverage(pos.avgEntryPrice, pos.quantity, o.avgFillPrice, o.filledQuantity);
        pos := pos.(avgEntryPrice := totalCost / totalQty, quantity := totalQty, side := Long);
        positions := positions[o.symbol := pos];
      } else {
        positions := positions[o.symbol := pos.(quantity := pos.quantity - o.filledQuantity)];
        if positions[o.symbol].quantity == 0.0 {
          positions := positions - {o.symbol};
        }
      }
    }

    method HandleOrderFilled(o: Order)
      requires CanFill(positions, o)
      modifies this
      ensures Snapshot() == BooksAfter(old(Snapshot()), o)
    {
      stats := stats.(totalTrades := stats.totalTrades + 1);
      stats := stats.(totalVolume := stats.totalVolume + o.filledQuantity);
      stats := stats.(totalFees := stats.totalFees + o.commission);
      if o.side == Buy {
        UpdateBalance(o.symbol, o.filledQuantity, false);
      } else {
        UpdateBalance(o.symbol, o.filledQuantity, true);
      }
      UpdateFromOrder(o);
    }
  }

  // ----- an independent ledger for one symbol -----

  /** Quantity, cost basis at average cost, and the lowest and highest price paid since flat. */
  datatype Ledger = Ledger(quantity: real, cost: real, low: real, high: real)

  ghost function Bought(l: Ledger, price: real, quantity: real): Ledger {
    Ledger(l.quantity + quantity, l.cost + price * quantity,
           if l.quantity == 0.0 || price < l.low then price else l.low,
           if l.quantity == 0.0 || price > l.high then price else l.high)
  }

  /** A sale takes its share of the cost basis with it. */
  ghost function Sold(l: Ledger, quantity: real): Ledger {
    if l.quantity == quantity || l.quantity == 0.0 then Ledger(l.quantity - quantity, 0.0, 0.0, 0.0)
    else l.(quantity := l.quantity - quantity, cost := l.cost * (l.quantity - quantity) / l.quantity)
  }

  ghost function Entry(l: Ledger, o: Order, s: string): Ledger {
    if o.symbol != s then l
    else if o.side == Buy then Bought(l, o.avgFillPrice, o.filledQuantity)
    else Sold(l, o.filledQuantity)
  }

  ghost function LedgerOf(orders: seq<Order>, s: string): Ledger {
    if orders == [] then Ledger(0.0, 0.0, 0.0, 0.0)
    else Entry(LedgerOf(orders[..|orders| - 1], s), orders[|orders| - 1], s)
  }

  ghost function NetBought(orders: seq<Order>, s: string): real {
    if orders == [] then 0.0
    else
      var o := orders[|orders| - 1];
      NetBought(orders[..|orders| - 1], s)
        + (if o.symbol != s then 0.0 else if o.side == Buy then o.filledQuantity else -o.filledQuantity)
  }

  /** All commissions. */
  ghost function Fees(orders: seq<Order>): real {
    if orders == [] then 0.0 else Fees(orders[..|orders| - 1]) + orders[|orders| - 1].commission
  }

  ghost function Volume(orders: seq<Order>): real {
    if orders == [] then 0.0 else Volume(orders[..|orders| - 1]) + orders[|orders| - 1].filledQuantity
  }

  ghost predicate InOrder(orders: seq<Order>, i: nat)
    requires i < |orders|
  {
    var o := orders[i];
    if o.side == Buy then o.filledQuantity > 0.0
    else 0.0 <= o.filledQuantity <= NetBought(orders[..i], o.symbol)
  }

  /** Every buy buys something, and no sell sells more than has been bought net before it. */
  ghost predicate NeverOversells(orders: seq<Order>) {
    forall i :: 0 <= i < |orders| ==> InOrder(orders, i)
  }

  /** Quantity and average price of a position fit the ledger. */
  ghost predicate Fits(quantity: real, avg: real, l: Ledger) {
    && quantity == l.quantity >= 0.0
    && quantity * avg == l.cost
    && (quantity > 0.0 ==> l.low <= avg <= l.high)
    && (quantity == 0.0 ==> l.cost == 0.0)
  }

  lemma SumBounds(avg: real, q: real, p: real, f: real, low: real, high: real)
    requires q >= 0.0 && f > 0.0 && low <= p <= high && (q > 0.0 ==> low <= avg <= high)
    ensures low * (q + f) <= avg * q + p * f <= high * (q + f)
  {
    if q > 0.0 {
      ProductNonNegative(avg - low, q);
      ProductNonNegative(high - avg, q);
    } else {
      assert (avg - low) * q == 0.0 && (high - avg) * q == 0.0;
    }
    ProductNonNegative(p - low, f);
    ProductNonNegative(high - p, f);
    assert avg * q + p * f - low * (q + f) == (avg - low) * q + (p - low) * f;
    assert high * (q + f) - (avg * q + p * f) == (high - avg) * q + (high - p) * f;
  }

  lemma QuotientBounds(a: real, b: real, low: real, high: real)
    requires b > 0.0 && low * b <= a <= high * b
    ensures low <= a / b <= high
  {
    QuotientOrder(a, b, low);
    QuotientOrder(a, b, high);
  }

  /** A weighted average lies between the bounds of what it averages, and gives back the sum. */
  lemma AverageStays(avg: real, q: real, p: real, f: real, low: real, high: real)
    requires q >= 0.0 && f > 0.0 && low <= p <= high && (q > 0.0 ==> low <= avg <= high)
    ensures (q + f) * BuyAverage(avg, q, p, f) == q * avg + p * f
    ensures low <= BuyAverage(avg, q, p, f) <= high
  {
    DivideBack(avg * q + p * f, q + f);
    SumBounds(avg, q, p, f, low, high);
    QuotientBounds(avg * q + p * f, q + f, low, high);
  }

  lemma BuyFits(quantity: real, avg: real, l: Ledger, price: real, bought: real)
    requires Fits(quantity, avg, l) && bought > 0.0
    ensures Fits(quantity + bought, BuyAverage(avg, quantity, price, bought), Bought(l, price, bought))
  {
    var l' := Bought(l, price, bought);
    AverageStays(avg, quantity, price, bought, l'.low, l'.high);
  }

  lemma ShareLeft(q: real, avg: real, cost: real, left: real)
    requires q > 0.0 && q * avg == cost
    ensures left * avg == cost * left / q
  {
    var r := cost * left / q;
    DivideBack(cost * left, q);
    assert (left * avg) * q == cost * left;
    ProductOrder(left * avg, r, q);
    ProductOrder(r, left * avg, q);
  }

  lemma SellFits(quantity: real, avg: real, l: Ledger, sold: real)
    requires Fits(quantity, avg, l) && 0.0 <= sold <= quantity
    ensures Fits(quantity - sold, if sold == quantity then 0.0 else avg, Sold(l, sold))
  {
    if sold < quantity {
      var left := quantity - sold;
      DivideBack(l.cost * left, quantity);
      ShareLeft(quantity, avg, l.cost, left);
    }
  }

  ghost function Average(positions: Positions, s: string): real {
    if s in positions then positions[s].avgEntryPrice else 0.0
  }

  /** The books agree with the ledger and with the orders about symbol `s`. */
  ghost predicate Agrees(b: Books, orders: seq<Order>, s: string) {
    && Held(b.positions, s) == NetBought(orders, s) == Free(b.balances, s)
    && (s in b.positions <==> Held(b.positions, s) > 0.0)
    && (s in b.positions ==> b.positions[s].symbol == s && b.positions[s].side == Long)
    && (s in b.balances ==> b.balances[s].asset == s && b.balances[s].locked == 0.0)
    && Fits(Held(b.positions, s), Average(b.positions, s), LedgerOf(orders, s))
  }

  /** The books after filling the orders one by one, as far as that is possible. */
  ghost function Run(orders: seq<Order>): Books {
    if orders == [] then EMPTY
    else
      var b, o := Run(orders[..|orders| - 1]), orders[|orders| - 1];
      if CanFill(b.positions, o) then BooksAfter(b, o) else b
  }

  lemma LastOrder(before: seq<Order>, o: Order, s: string)
    ensures LedgerOf(before + [o], s) == Entry(LedgerOf(before, s), o, s)
    ensures NetBought(before + [o], s) == NetBought(before, s)
      + (if o.symbol != s then 0.0 else if o.side == Buy then o.filledQuantity else -o.filledQuantity)
    ensures Volume(before + [o]) == Volume(before) + o.filledQuantity
    ensures Fees(before + [o]) == Fees(before) + o.commission
    ensures Run(before + [o]) == if CanFill(Run(before).positions, o) then BooksAfter(Run(before), o) else Run(before)
  {
    assert (before + [o])[..|before + [o]| - 1] == before;
  }

  lemma FillStep(b: Books, before: seq<Order>, o: Order, s: string)
    requires if o.side == Buy then o.filledQuantity > 0.0 else 0.0 <= o.filledQuantity <= NetBought(before, o.symbol)
    requires CanFill(b.positions, o) && Agrees(b, before, s)
    ensures Agrees(BooksAfter(b, o), before + [o], s)
  {
    LastOrder(before, o, s);
    if o.symbol == s {
      if o.side == Buy {
        BuyFits(Held(b.positions, s), Average(b.positions, s), LedgerOf(before, s), o.avgFillPrice, o.filledQuantity);
      } else {
        SellFits(Held(b.positions, s), Average(b.positions, s), LedgerOf(before, s), o.filledQuantity);
      }
    }
  }

  /** After any run that never oversells, for every symbol: the position, the net bought quantity
      and the free balance agree, the position's quantity times its average price is the remaining
      cost basis, and that average lies between the lowest and the highest price paid since the
      position was last flat. No fill of such a run divides by zero. */
  lemma {:induction false} BooksAgree(orders: seq<Order>, s: string)
    requires NeverOversells(orders)
    ensures Agrees(Run(orders), orders, s)
    ensures Run(orders).stats == Stats(|orders|, Volume(orders), Fees(orders))
    ensures orders != [] ==> CanFill(Run(orders[..|orders| - 1]).positions, orders[|orders| - 1])
    decreases |orders|
  {
    if orders != [] {
      var before, o := orders[..|orders| - 1], orders[|orders| - 1];
      assert orders == before + [o];
      forall i | 0 <= i < |before|
        ensures InOrder(before, i)
      {
        assert InOrder(orders, i) && before[..i] == orders[..i];
      }
      assert InOrder(orders, |orders| - 1);
      BooksAgree(before, s);
      BooksAgree(before, o.symbol);
      FillStep(Run(before), before, o, s);
      LastOrder(before, o, s);
    }
  }
}
