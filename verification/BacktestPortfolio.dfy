/** The backtest portfolio: positions, realised profit, the equity curve and its drawdowns. */
module BacktestPortfolios {
  import opened RealMath
  import opened RealSums

  datatype Position = Position(
    symbol: string, quantity: real, entryPrice: real, currentPrice: real, unrealizedPnL: real, openedAt: int)

  datatype Trade = Trade(
    symbol: string, quantity: real, entryPrice: real, exitPrice: real, pnl: real, openedAt: int, closedAt: int)

  datatype EquityPoint = EquityPoint(timestamp: int, equity: real, drawdown: real)

  datatype Error = InsufficientBalance | PositionNotFound | InsufficientPosition

  datatype Result<T> = Ok(value: T) | Err(error: Error)

  type Positions = map<string, Position>
  type Prices = map<string, real>

  const PnLOf: Trade -> real := (t: Trade) => t.pnl

  ghost predicate Keyed(positions: Positions) {
    forall s :: s in positions ==> positions[s].symbol == s
  }

  // ----- what the positions are worth -----

  ghost function Worth(positions: Positions, prices: Prices, s: string): real
    requires s in positions
  {
    if s in prices then positions[s].quantity * prices[s] else 0.0
  }

  /** The market value of the given symbols; symbols without a price count for nothing. */
  ghost function MarketValue(positions: Positions, prices: Prices, symbols: set<string>): real
    requires symbols <= positions.Keys
    decreases |symbols|
  {
    if symbols == {} then 0.0
    else
      var s :| s in symbols;
      Worth(positions, prices, s) + MarketValue(positions, prices, symbols - {s})
  }

  /** The order in which symbols are visited does not matter. */
  lemma {:induction false} MarketValueWithout(positions: Positions, prices: Prices, symbols: set<string>, t: string)
    requires symbols <= positions.Keys && t in symbols
    ensures MarketValue(positions, prices, symbols)
         == Worth(positions, prices, t) + MarketValue(positions, prices, symbols - {t})
    decreases |symbols|
  {
    var s :| s in symbols && MarketValue(positions, prices, symbols)
      == Worth(positions, prices, s) + MarketValue(positions, prices, symbols - {s});
    if s != t {
      MarketValueWithout(positions, prices, symbols - {s}, t);
      MarketValueWithout(positions, prices, symbols - {t}, s);
      assert symbols - {s} - {t} == symbols - {t} - {s};
    }
  }

  function EntryPrices(positions: Positions): Prices {
    map s | s in positions :: positions[s].entryPrice
  }

  /** Everything that is held, at entry prices. */
  ghost function BookTotal(positions: Positions): real {
    MarketValue(positions, EntryPrices(positions), positions.Keys)
  }

  function Marked(p: Position, prices: Prices): Position {
    if p.symbol in prices then
      p.(currentPrice := prices[p.symbol], unrealizedPnL := p.quantity * (prices[p.symbol] - p.entryPrice))
    else p
  }

  ghost function AllMarked(positions: Positions, prices: Prices): Positions {
    map s | s in positions :: Marked(positions[s], prices)
  }

  // ----- what marking records -----

  ghost function Priced(positions: Positions, prices: Prices): set<string> {
    set s | s in positions && s in prices
  }

  /** What the positions of the given symbols show as profit that is not realised. */
  ghost function Unrealised(positions: Positions, symbols: set<string>): real
    requires symbols <= positions.Keys
    decreases |symbols|
  {
    if symbols == {} then 0.0
    else
      var s :| s in symbols;
      positions[s].unrealizedPnL + Unrealised(positions, symbols - {s})
  }

  lemma {:induction false} UnrealisedWithout(positions: Positions, symbols: set<string>, t: string)
    requires symbols <= positions.Keys && t in symbols
    ensures Unrealised(positions, symbols) == positions[t].unrealizedPnL + Unrealised(positions, symbols - {t})
    decreases |symbols|
  {
    var s :| s in symbols && Unrealised(positions, symbols)
      == positions[s].unrealizedPnL + Unrealised(positions, symbols - {s});
    if s != t {
      UnrealisedWithout(positions, symbols - {s}, t);
      UnrealisedWithout(positions, symbols - {t}, s);
      assert symbols - {s} - {t} == symbols - {t} - {s};
    }
  }

  /** Every position with a price shows that price, and as profit what it is worth beyond its entry
      price; nothing else changes. */
  ghost predicate IsMark(was: Positions, now: Positions, prices: Prices) {
    && was.Keys == now.Keys
    && forall s :: s in was ==>
      && now[s].symbol == was[s].symbol && now[s].quantity == was[s].quantity
      && now[s].entryPrice == was[s].entryPrice && now[s].openedAt == was[s].openedAt
      && (s !in prices ==> now[s] == was[s])
      && (s in prices ==>
            && now[s].currentPrice == prices[s]
            && now[s].unrealizedPnL == Worth(was, prices, s) - was[s].quantity * was[s].entryPrice)
  }

  lemma ProfitOverEntry(quantity: real, price: real, entry: real)
    ensures quantity * (price - entry) == quantity * price - quantity * entry
  {
  }

  lemma AllMarkedIsMark(positions: Positions, prices: Prices)
    requires Keyed(positions)
    ensures IsMark(positions, AllMarked(positions, prices), prices)
  {
    forall s | s in positions && s in prices
      ensures Marked(positions[s], prices).unrealizedPnL
           == Worth(positions, prices, s) - positions[s].quantity * positions[s].entryPrice
    {
      ProfitOverEntry(positions[s].quantity, prices[s], positions[s].entryPrice);
    }
  }

  lemma MarkGain(was: Positions, now: Positions, prices: Prices, s: string)
    requires IsMark(was, now, prices) && s in Priced(was, prices)
    ensures now[s].unrealizedPnL == Worth(was, prices, s) - Worth(was, EntryPrices(was), s)
  {
  }

  lemma {:induction false} MarkGains(was: Positions, now: Positions, prices: Prices, symbols: set<string>)
    requires IsMark(was, now, prices) && symbols <= Priced(was, prices)
    ensures Unrealised(now, symbols)
         == MarketValue(was, prices, symbols) - MarketValue(was, EntryPrices(was), symbols)
    decreases |symbols|
  {
    if symbols != {} {
      var s :| s in symbols;
      MarkGain(was, now, prices, s);
      UnrealisedWithout(now, symbols, s);
      MarketValueWithout(was, prices, symbols, s);
      MarketValueWithout(was, EntryPrices(was), symbols, s);
      MarkGains(was, now, prices, symbols - {s});
    }
  }

  lemma {:induction false} UnpricedIsWorthless(positions: Positions, prices: Prices, symbols: set<string>)
    requires symbols <= positions.Keys
    ensures MarketValue(positions, prices, symbols)
         == MarketValue(positions, prices, symbols * Priced(positions, prices))
    decreases |symbols|
  {
    var priced := Priced(positions, prices);
    if symbols != {} {
      var s :| s in symbols;
      MarketValueWithout(positions, prices, symbols, s);
      UnpricedIsWorthless(positions, prices, symbols - {s});
      if s in priced {
        MarketValueWithout(positions, prices, symbols * priced, s);
        assert symbols * priced - {s} == (symbols - {s}) * priced;
      } else {
        assert symbols * priced == (symbols - {s}) * priced;
      }
    }
  }

  /** The profits shown after a mark add up to what the priced positions are worth beyond their entry
      prices; to everything held, if there is a price for all of it. */
  lemma MarkAddsUp(was: Positions, now: Positions, prices: Prices)
    requires IsMark(was, now, prices)
    ensures Unrealised(now, Priced(was, prices))
         == MarketValue(was, prices, was.Keys) - MarketValue(was, EntryPrices(was), Priced(was, prices))
    ensures was.Keys <= prices.Keys ==>
      Unrealised(now, now.Keys) == MarketValue(was, prices, was.Keys) - BookTotal(was)
  {
    MarkGains(was, now, prices, Priced(was, prices));
    UnpricedIsWorthless(was, prices, was.Keys);
    assert was.Keys * Priced(was, prices) == Priced(was, prices);
    if was.Keys <= prices.Keys {
      assert Priced(was, prices) == was.Keys;
    }
  }

  /** What the position shows fits what it holds. */
  ghost predicate ShowsProfit(p: Position) {
    p.unrealizedPnL == p.quantity * (p.currentPrice - p.entryPrice)
  }

  // ----- drawdowns -----

  ghost function Equities(curve: seq<EquityPoint>): seq<real> {
    if curve == [] then [] else Equities(curve[..|curve| - 1]) + [curve[|curve| - 1].equity]
  }

  /** The running peak, which starts at zero. */
  ghost function Peak(e: seq<real>): real {
    if e == [] then 0.0
    else var before := Peak(e[..|e| - 1]); if e[|e| - 1] > before then e[|e| - 1] else before
  }

  function RelativeDrop(peak: real, equity: real): real {
    if peak > 0.0 then (peak - equity) / peak else 0.0
  }

  /** The drawdown recorded with the last point. */
  ghost function Drawdown(e: seq<real>): real
    requires e != []
  {
    RelativeDrop(Peak(e), e[|e| - 1])
  }

  /** Every point of the curve carries the drawdown of the points up to it. */
  ghost predicate Tracks(curve: seq<EquityPoint>) {
    forall n :: 0 <= n < |curve| ==> curve[n].drawdown == Drawdown(Equities(curve[..n + 1]))
  }

  /** The relative loss from point `i` to a later point `j`. */
  ghost function Loss(e: seq<real>, i: nat, j: nat): real
    requires i <= j < |e| && e[i] > 0.0
  {
    (e[i] - e[j]) / e[i]
  }

  /** `m` is the greatest loss over all pairs of points, or zero if no pair can lose. */
  ghost predicate IsWorstLoss(e: seq<real>, m: real) {
    && m >= 0.0
    && (forall i, j :: 0 <= i <= j < |e| && e[i] > 0.0 ==> Loss(e, i, j) <= m)
    && (m == 0.0 || exists i, j :: 0 <= i <= j < |e| && e[i] > 0.0 && Loss(e, i, j) == m)
  }

  lemma {:induction false} PeakIsGreatest(e: seq<real>)
    ensures Peak(e) >= 0.0 && forall i :: 0 <= i < |e| ==> e[i] <= Peak(e)
    ensures Peak(e) > 0.0 ==> Peak(e) in e
  {
    if e != [] {
      var n := |e| - 1;
      PeakIsGreatest(e[..n]);
      assert forall i :: 0 <= i < n ==> e[i] == e[..n][i];
      assert Peak(e) > 0.0 ==> Peak(e) == e[n] || Peak(e) in e[..n];
    }
  }

  lemma DivideMonotone(a: real, b: real, x: real)
    requires 0.0 < a <= b && 0.0 <= x
    ensures (a - x) / a <= (b - x) / b
  {
    var s := (b - x) / b;
    DivideBack(b - x, b);
    QuotientOrder(b - x, b, 1.0);
    ProductNonNegative(1.0 - s, b - a);
    assert (1.0 - s) * (b - a) == (b - s * b) - (a - s * a);
    QuotientOrder(a - x, a, s);
  }

  /** With no negative equity the last drawdown is the worst loss that ends at the last point. */
  lemma DrawdownIsWorstToLast(e: seq<real>)
    requires e != [] && e[|e| - 1] >= 0.0
    ensures 0.0 <= Drawdown(e) <= 1.0
    ensures forall i :: 0 <= i < |e| && e[i] > 0.0 ==> Loss(e, i, |e| - 1) <= Drawdown(e)
    ensures Drawdown(e) == 0.0 || exists i :: 0 <= i < |e| && e[i] > 0.0 && Loss(e, i, |e| - 1) == Drawdown(e)
  {
    PeakIsGreatest(e);
    var peak, last := Peak(e), e[|e| - 1];
    if peak > 0.0 {
      ProperFraction(peak - last, peak);
      var k :| 0 <= k < |e| && e[k] == peak;
      assert Loss(e, k, |e| - 1) == Drawdown(e);
      forall i | 0 <= i < |e| && e[i] > 0.0
        ensures Loss(e, i, |e| - 1) <= Drawdown(e)
      {
        DivideMonotone(e[i], peak, last);
      }
    }
  }

  /** The greatest drawdown on the curve, or zero. */
  ghost function MaxDrawdown(curve: seq<EquityPoint>): real {
    if curve == [] then 0.0
    else
      var before := MaxDrawdown(curve[..|curve| - 1]);
      if curve[|curve| - 1].drawdown > before then curve[|curve| - 1].drawdown else before
  }

  lemma ExtendWorstLoss(e: seq<real>, last: real, m: real)
    requires IsWorstLoss(e, m) && last >= 0.0
    ensures var e' := e + [last];
            IsWorstLoss(e', if Drawdown(e') > m then Drawdown(e') else m)
  {
    var e' := e + [last];
    DrawdownIsWorstToLast(e');
    var d := if Drawdown(e') > m then Drawdown(e') else m;
    forall i, j | 0 <= i <= j < |e'| && e'[i] > 0.0
      ensures Loss(e', i, j) <= d
    {
      if j < |e| {
        assert Loss(e', i, j) == Loss(e, i, j);
      }
    }
    if d > 0.0 && d == m {
      var i, j :| 0 <= i <= j < |e| && e[i] > 0.0 && Loss(e, i, j) == m;
      assert Loss(e', i, j) == m;
    }
  }

  /** One running peak is enough: with no negative equity the greatest recorded drawdown is the
      greatest loss over all pairs of points. */
  lemma {:induction false} MaxDrawdownIsWorstLoss(curve: seq<EquityPoint>)
    requires Tracks(curve) && forall k :: 0 <= k < |curve| ==> curve[k].equity >= 0.0
    ensures IsWorstLoss(Equities(curve), MaxDrawdown(curve))
    ensures MaxDrawdown(curve) <= 1.0
  {
    if curve != [] {
      var n := |curve| - 1;
      var before := curve[..n];
      forall k | 0 <= k < n
        ensures before[k].drawdown == Drawdown(Equities(before[..k + 1]))
      {
        assert before[..k + 1] == curve[..k + 1];
      }
      MaxDrawdownIsWorstLoss(before);
      assert curve[..n + 1] == curve;
      DrawdownIsWorstToLast(Equities(curve));
      ExtendWorstLoss(Equities(before), curve[n].equity, MaxDrawdown(before));
    }
  }

  // ----- opening and closing positions -----

  ghost function Held(positions: Positions, s: string): real {
    if s in positions then positions[s].quantity else 0.0
  }

  ghost function Opened(positions: Positions, s: string, quantity: real, price: real, now: int): Result<Positions> {
    if s in positions then
      if positions[s].quantity + quantity < 0.0 then Err(InsufficientBalance)
      else Ok(positions[s := positions[s].(quantity := positions[s].quantity + quantity)])
    else Ok(positions[s := Position(s, quantity, price, price, 0.0, now)])
  }

  ghost function ClosingTrade(p: Position, quantity: real, price: real, now: int): Trade {
    Trade(p.symbol, quantity, p.entryPrice, price, quantity * (price - p.entryPrice), p.openedAt, now)
  }

  ghost function Closed(positions: Positions, s: string, quantity: real, price: real, now: int)
    : Result<(Positions, Trade)>
  {
    if s !in positions then Err(PositionNotFound)
    else if quantity > positions[s].quantity then Err(InsufficientPosition)
    else
      var left := positions[s].quantity - quantity;
      Ok((if left <= 0.0 then positions - {s} else positions[s := positions[s].(quantity := left)],
          ClosingTrade(positions[s], quantity, price, now)))
  }

  lemma ChangeInProfit(held: real, change: real, gain: real)
    requires change != 0.0
    ensures (held + change) * gain == held * gain <==> gain == 0.0
  {
    assert (held + change) * gain == held * gain + change * gain;
    if gain != 0.0 {
      ProductNonzero(change, gain);
    }
  }

  /** A new position shows its profit, which is none. Opening more of it or closing a part leaves the
      profit that it shows as it was, which is right if and only if its price had not moved. */
  lemma ShownProfitIsStaleIff(positions: Positions, s: string, quantity: real, price: real, now: int)
    requires s in positions ==> ShowsProfit(positions[s])
    ensures var o := Opened(positions, s, quantity, price, now);
            o.Ok? ==> (ShowsProfit(o.value[s]) <==>
                         s !in positions || quantity == 0.0 || positions[s].currentPrice == positions[s].entryPrice)
    ensures var c := Closed(positions, s, quantity, price, now);
            c.Ok? && s in c.value.0 ==>
              (ShowsProfit(c.value.0[s]) <==>
                 quantity == 0.0 || positions[s].currentPrice == positions[s].entryPrice)
  {
    if s in positions && quantity != 0.0 {
      var p := positions[s];
      ChangeInProfit(p.quantity, quantity, p.currentPrice - p.entryPrice);
      ChangeInProfit(p.quantity, -quantity, p.currentPrice - p.entryPrice);
    }
  }

  /** One unit bought at 100 and marked at 110 shows a profit of 10, and still does when half of it is sold. */
  lemma ProfitGoesStale(s: string)
    ensures var p := map[s := Marked(Position(s, 1.0, 100.0, 100.0, 0.0, 0), map[s := 110.0])];
            && ShowsProfit(p[s]) && p[s].unrealizedPnL == 10.0
            && var c := Closed(p, s, 0.5, 110.0, 1);
            && c.Ok? && s in c.value.0 && c.value.0[s].quantity == 0.5 && c.value.0[s].unrealizedPnL == 10.0
  {
  }

  /** Quantities add up: what is held changes by exactly what was opened or closed, and closing
      everything removes the position. */
  lemma QuantitiesAddUp(positions: Positions, s: string, t: string, quantity: real, price: real, now: int)
    ensures var r := Opened(positions, s, quantity, price, now);
            r.Ok? ==> Held(r.value, t) == Held(positions, t) + (if t == s then quantity else 0.0)
    ensures var r := Closed(positions, s, quantity, price, now);
            r.Ok? ==> Held(r.value.0, t) == Held(positions, t) - (if t == s then quantity else 0.0)
    ensures var r := Closed(positions, s, quantity, price, now);
            r.Ok? ==> (s !in r.value.0 <==> quantity == Held(positions, s))
  {
  }

  // ----- realised profit over whole runs -----

  datatype TradeOp =
    | Open(symbol: string, quantity: real, price: real, now: int)
    | Close(symbol: string, quantity: real, price: real, now: int)
    | Mark(now: int, prices: Prices)

  datatype Account = Account(positions: Positions, trades: seq<Trade>)

  ghost predicate Succeeds(a: Account, op: TradeOp) {
    match op
    case Open(s, quantity, price, now) => Opened(a.positions, s, quantity, price, now).Ok?
    case Close(s, quantity, price, now) => Closed(a.positions, s, quantity, price, now).Ok?
    case Mark(_, _) => true
  }

  /** An operation that is refused changes nothing. */
  ghost function AccountAfter(a: Account, op: TradeOp): Account {
    if !Succeeds(a, op) then a
    else
      match op
      case Open(s, quantity, price, now) => a.(positions := Opened(a.positions, s, quantity, price, now).value)
      case Close(s, quantity, price, now) =>
        var (left, trade) := Closed(a.positions, s, quantity, price, now).value;
        Account(left, a.trades + [trade])
      case Mark(_, prices) => a.(positions := AllMarked(a.positions, prices))
  }

  ghost function RunOf(ops: seq<TradeOp>): Account {
    if ops == [] then Account(map[], [])
    else AccountAfter(RunOf(ops[..|ops| - 1]), ops[|ops| - 1])
  }

  ghost function PnLIn(s: string): Trade -> real {
    (t: Trade) => if t.symbol == s then t.pnl else 0.0
  }

  /** The profit that the closing trades of a symbol report. */
  ghost function Realised(trades: seq<Trade>, s: string): real {
    SumOf(PnLIn(s), trades)
  }

  ghost function CashMoved(a: Account, op: TradeOp): real {
    if op.Mark? || !Succeeds(a, op) then 0.0
    else if op.Open? then -(op.quantity * op.price)
    else op.quantity * op.price
  }

  ghost function CashOf(a: Account, op: TradeOp, s: string): real {
    if op.Mark? || op.symbol != s then 0.0 else CashMoved(a, op)
  }

  /** What the operations on `s` that succeed take in, less what they pay. */
  ghost function CashFlow(ops: seq<TradeOp>, s: string): real {
    if ops == [] then 0.0
    else CashFlow(ops[..|ops| - 1], s) + CashOf(RunOf(ops[..|ops| - 1]), ops[|ops| - 1], s)
  }

  ghost function Overpaid(a: Account, op: TradeOp): real {
    if op.Open? && op.symbol in a.positions && Succeeds(a, op)
    then op.quantity * (op.price - a.positions[op.symbol].entryPrice)
    else 0.0
  }

  ghost function MispricedBy(a: Account, op: TradeOp, s: string): real {
    if op.Open? && op.symbol == s then Overpaid(a, op) else 0.0
  }

  /** What purchases that add to a position of `s` paid beyond that position's entry price. */
  ghost function Mispriced(ops: seq<TradeOp>, s: string): real {
    if ops == [] then 0.0
    else Mispriced(ops[..|ops| - 1], s) + MispricedBy(RunOf(ops[..|ops| - 1]), ops[|ops| - 1], s)
  }

  ghost function NetOf(a: Account, op: TradeOp, s: string): real {
    if op.Mark? || op.symbol != s || !Succeeds(a, op) then 0.0
    else if op.Open? then op.quantity
    else -op.quantity
  }

  /** The quantity that the operations on `s` that succeed add, net. */
  ghost function NetQuantity(ops: seq<TradeOp>, s: string): real {
    if ops == [] then 0.0
    else NetQuantity(ops[..|ops| - 1], s) + NetOf(RunOf(ops[..|ops| - 1]), ops[|ops| - 1], s)
  }

  /** What is held of `s`, at its entry price. */
  ghost function BookValue(positions: Positions, s: string): real {
    if s in positions then positions[s].quantity * positions[s].entryPrice else 0.0
  }

  lemma AddAtEntry(held: real, quantity: real, entry: real, price: real)
    ensures (held + quantity) * entry - held * entry == quantity * price - quantity * (price - entry)
  {
  }

  lemma OpenMoves(a: Account, op: TradeOp, s: string)
    requires Keyed(a.positions) && op.Open?
    ensures var b := AccountAfter(a, op);
            && Keyed(b.positions) && Realised(b.trades, s) == Realised(a.trades, s)
            && BookValue(b.positions, s) - BookValue(a.positions, s) == -CashOf(a, op, s) - MispricedBy(a, op, s)
  {
    if op.symbol == s && s in a.positions {
      var p := a.positions[s];
      AddAtEntry(p.quantity, op.quantity, p.entryPrice, op.price);
    }
  }

  lemma TakeAtEntry(held: real, quantity: real, entry: real, price: real)
    ensures quantity * (price - entry) == quantity * price + (held - quantity) * entry - held * entry
    ensures held - quantity == 0.0 ==> (held - quantity) * entry == 0.0
  {
  }

  lemma CloseMoves(a: Account, op: TradeOp, s: string)
    requires Keyed(a.positions) && op.Close?
    ensures var b := AccountAfter(a, op);
            && Keyed(b.positions) && MispricedBy(a, op, s) == 0.0
            && Realised(b.trades, s) - Realised(a.trades, s)
               == CashOf(a, op, s) + BookValue(b.positions, s) - BookValue(a.positions, s)
  {
    if Succeeds(a, op) {
      var p := a.positions[op.symbol];
      var trade := ClosingTrade(p, op.quantity, op.price, op.now);
      SumConcat(PnLIn(s), a.trades, [trade]);
      assert SumOf(PnLIn(s), [trade]) == PnLIn(s)(trade);
      TakeAtEntry(p.quantity, op.quantity, p.entryPrice, op.price);
    }
  }

  /** Marking changes neither quantities nor entry prices. */
  lemma MarkMovesNothing(a: Account, op: TradeOp, s: string)
    requires Keyed(a.positions) && op.Mark?
    ensures var b := AccountAfter(a, op);
            && Keyed(b.positions) && b.trades == a.trades && Held(b.positions, s) == Held(a.positions, s)
            && BookValue(b.positions, s) == BookValue(a.positions, s)
            && CashOf(a, op, s) == MispricedBy(a, op, s) == NetOf(a, op, s) == 0.0
  {
  }

  /** In every run: what has been realised is the cash flow plus what is still held at its entry
      price plus what later purchases were mispriced by; and what is held is what was bought, net. */
  lemma {:induction false} RunBalances(ops: seq<TradeOp>, s: string)
    ensures var a := RunOf(ops);
            && Keyed(a.positions) && Held(a.positions, s) == NetQuantity(ops, s)
            && Realised(a.trades, s) == CashFlow(ops, s) + BookValue(a.positions, s) + Mispriced(ops, s)
  {
    if ops != [] {
      var before, op := ops[..|ops| - 1], ops[|ops| - 1];
      RunBalances(before, s);
      if op.Mark? {
        MarkMovesNothing(RunOf(before), op, s);
        return;
      }
      QuantitiesAddUp(RunOf(before).positions, op.symbol, s, op.quantity, op.price, op.now);
      if op.Open? {
        OpenMoves(RunOf(before), op, s);
      } else {
        CloseMoves(RunOf(before), op, s);
      }
    }
  }

  /** A position keeps its first entry price. So in any run, with partial closes and later purchases
      in any order, what is realised once the symbol is flat is what was earned in cash if and only
      if the purchases that added to a position were mispriced by nothing overall. */
  lemma ProfitIsCashFlowIff(ops: seq<TradeOp>, s: string)
    requires s !in RunOf(ops).positions
    ensures Realised(RunOf(ops).trades, s) == CashFlow(ops, s) <==> Mispriced(ops, s) == 0.0
  {
    RunBalances(ops, s);
  }

  // ----- what the closing trades say -----

  /** An operation opened `s` at this price and time. */
  ghost predicate WasOpened(ops: seq<TradeOp>, s: string, price: real, at: int) {
    exists i :: 0 <= i < |ops| && ops[i].Open? && ops[i].symbol == s && ops[i].price == price && ops[i].now == at
  }

  ghost predicate WasClosed(ops: seq<TradeOp>, t: Trade) {
    Close(t.symbol, t.quantity, t.exitPrice, t.closedAt) in ops
  }

  /** Prices and times of a trade are those of the operations that opened and closed the position, and
      its profit is the difference. */
  ghost predicate ComesFrom(t: Trade, ops: seq<TradeOp>) {
    && WasOpened(ops, t.symbol, t.entryPrice, t.openedAt) && WasClosed(ops, t)
    && t.pnl == t.quantity * (t.exitPrice - t.entryPrice)
  }

  ghost predicate AllOpened(positions: Positions, ops: seq<TradeOp>) {
    forall s :: s in positions ==> WasOpened(ops, s, positions[s].entryPrice, positions[s].openedAt)
  }

  lemma StillOpened(ops: seq<TradeOp>, op: TradeOp, s: string, price: real, at: int)
    requires WasOpened(ops, s, price, at)
    ensures WasOpened(ops + [op], s, price, at)
  {
    var i :| 0 <= i < |ops| && ops[i].Open? && ops[i].symbol == s && ops[i].price == price && ops[i].now == at;
    assert (ops + [op])[i] == ops[i];
  }

  lemma OpenedAfter(ops: seq<TradeOp>, a: Account, op: TradeOp)
    requires Keyed(a.positions) && AllOpened(a.positions, ops)
    ensures AllOpened(AccountAfter(a, op).positions, ops + [op])
  {
    var b := AccountAfter(a, op).positions;
    forall s | s in b ensures WasOpened(ops + [op], s, b[s].entryPrice, b[s].openedAt) {
      if s in a.positions {
        StillOpened(ops, op, s, b[s].entryPrice, b[s].openedAt);
      } else {
        assert (ops + [op])[|ops|] == op;
      }
    }
  }

  lemma TradesAfter(ops: seq<TradeOp>, a: Account, op: TradeOp)
    requires Keyed(a.positions) && AllOpened(a.positions, ops)
    requires forall k :: 0 <= k < |a.trades| ==> ComesFrom(a.trades[k], ops)
    ensures var trades := AccountAfter(a, op).trades;
            forall k :: 0 <= k < |trades| ==> ComesFrom(trades[k], ops + [op])
  {
    var trades := AccountAfter(a, op).trades;
    forall k | 0 <= k < |trades| ensures ComesFrom(trades[k], ops + [op]) {
      var t := trades[k];
      if k < |a.trades| {
        assert ComesFrom(a.trades[k], ops);
        StillOpened(ops, op, t.symbol, t.entryPrice, t.openedAt);
      } else {
        StillOpened(ops, op, t.symbol, t.entryPrice, t.openedAt);
        assert (ops + [op])[|ops|] == op;
      }
    }
  }

  /** In every run, every closing trade comes from the operations of the run. */
  lemma {:induction false} TradesComeFromOps(ops: seq<TradeOp>)
    ensures var a := RunOf(ops);
            AllOpened(a.positions, ops) && forall k :: 0 <= k < |a.trades| ==> ComesFrom(a.trades[k], ops)
  {
    if ops != [] {
      var before, op := ops[..|ops| - 1], ops[|ops| - 1];
      assert ops == before + [op];
      TradesComeFromOps(before);
      RunBalances(before, "");
      OpenedAfter(before, RunOf(before), op);
      TradesAfter(before, RunOf(before), op);
    }
  }

  ghost function ExitIn(s: string): Trade -> real {
    (t: Trade) => if t.symbol == s then t.quantity * t.exitPrice else 0.0
  }

  /** What closing `s` took in. */
  ghost function TakenIn(ops: seq<TradeOp>, s: string): real {
    if ops == [] then 0.0
    else
      var before, op := ops[..|ops| - 1], ops[|ops| - 1];
      TakenIn(before, s) + (if op.Close? then CashOf(RunOf(before), op, s) else 0.0)
  }

  lemma ExitMoves(a: Account, op: TradeOp, s: string)
    requires Keyed(a.positions)
    ensures SumOf(ExitIn(s), AccountAfter(a, op).trades) - SumOf(ExitIn(s), a.trades)
         == if op.Close? then CashOf(a, op, s) else 0.0
  {
    if op.Close? && Succeeds(a, op) {
      var trade := ClosingTrade(a.positions[op.symbol], op.quantity, op.price, op.now);
      SumConcat(ExitIn(s), a.trades, [trade]);
      assert SumOf(ExitIn(s), [trade]) == ExitIn(s)(trade);
    }
  }

  /** The quantities of the closing trades at their exit prices are the money that came in. */
  lemma {:induction false} ExitsAddUp(ops: seq<TradeOp>, s: string)
    ensures SumOf(ExitIn(s), RunOf(ops).trades) == TakenIn(ops, s)
  {
    if ops != [] {
      var before, op := ops[..|ops| - 1], ops[|ops| - 1];
      ExitsAddUp(before, s);
      RunBalances(before, s);
      ExitMoves(RunOf(before), op, s);
    }
  }

  lemma OneMoreOp(ops: seq<TradeOp>, op: TradeOp, s: string)
    ensures RunOf(ops + [op]) == AccountAfter(RunOf(ops), op)
    ensures CashFlow(ops + [op], s) == CashFlow(ops, s) + CashOf(RunOf(ops), op, s)
    ensures Mispriced(ops + [op], s) == Mispriced(ops, s) + MispricedBy(RunOf(ops), op, s)
  {
    assert (ops + [op])[..|ops|] == ops;
  }

  // ----- the reported equity -----

  lemma {:induction false} MarketValueSame(p: Positions, prices: Prices, q: Positions, prices': Prices,
                                           symbols: set<string>)
    requires symbols <= p.Keys && symbols <= q.Keys
    requires forall t :: t in symbols ==> Worth(p, prices, t) == Worth(q, prices', t)
    ensures MarketValue(p, prices, symbols) == MarketValue(q, prices', symbols)
    decreases |symbols|
  {
    if symbols != {} {
      var t :| t in symbols;
      MarketValueWithout(p, prices, symbols, t);
      MarketValueWithout(q, prices', symbols, t);
      MarketValueSame(p, prices, q, prices', symbols - {t});
    }
  }

  /** The two portfolios hold the same of all symbols but `s`. */
  ghost predicate SameBut(p: Positions, q: Positions, s: string) {
    forall t :: t != s ==>
      && (t in p <==> t in q)
      && (t in p && t in q ==> p[t].quantity == q[t].quantity && p[t].entryPrice == q[t].entryPrice)
  }

  lemma BookWithout(p: Positions, s: string)
    ensures BookTotal(p) == BookValue(p, s) + MarketValue(p, EntryPrices(p), p.Keys - {s})
  {
    if s in p {
      MarketValueWithout(p, EntryPrices(p), p.Keys, s);
    } else {
      assert p.Keys - {s} == p.Keys;
    }
  }

  lemma BookMoves(p: Positions, q: Positions, s: string)
    requires SameBut(p, q, s)
    ensures BookTotal(q) - BookTotal(p) == BookValue(q, s) - BookValue(p, s)
  {
    BookWithout(p, s);
    BookWithout(q, s);
    assert p.Keys - {s} == q.Keys - {s};
    MarketValueSame(p, EntryPrices(p), q, EntryPrices(q), p.Keys - {s});
  }

  ghost function TotalCash(ops: seq<TradeOp>): real {
    if ops == [] then 0.0
    else TotalCash(ops[..|ops| - 1]) + CashMoved(RunOf(ops[..|ops| - 1]), ops[|ops| - 1])
  }

  ghost function TotalOverpaid(ops: seq<TradeOp>): real {
    if ops == [] then 0.0
    else TotalOverpaid(ops[..|ops| - 1]) + Overpaid(RunOf(ops[..|ops| - 1]), ops[|ops| - 1])
  }

  lemma ProfitMoves(a: Account, op: TradeOp)
    requires Keyed(a.positions) && op.Close?
    ensures var b := AccountAfter(a, op);
            SumOf(PnLOf, b.trades) - SumOf(PnLOf, a.trades)
            == Realised(b.trades, op.symbol) - Realised(a.trades, op.symbol)
  {
    if Succeeds(a, op) {
      var trade := ClosingTrade(a.positions[op.symbol], op.quantity, op.price, op.now);
      SumConcat(PnLOf, a.trades, [trade]);
      SumConcat(PnLIn(op.symbol), a.trades, [trade]);
    }
  }

  lemma TotalMoves(a: Account, op: TradeOp)
    requires Keyed(a.positions)
    ensures var b := AccountAfter(a, op);
            SumOf(PnLOf, b.trades) - SumOf(PnLOf, a.trades)
            == CashMoved(a, op) + Overpaid(a, op) + BookTotal(b.positions) - BookTotal(a.positions)
  {
    var b := AccountAfter(a, op);
    match op
    case Mark(_, _) =>
      BookMoves(a.positions, b.positions, "");
      MarkMovesNothing(a, op, "");
    case Open(s, _, _, _) =>
      BookMoves(a.positions, b.positions, s);
      OpenMoves(a, op, s);
    case Close(s, quantity, price, now) =>
      BookMoves(a.positions, b.positions, s);
      CloseMoves(a, op, s);
      ProfitMoves(a, op);
  }

  /** In every run, over all symbols: realised profit is the cash flow plus what is held at entry prices
      plus what later purchases were mispriced by. */
  lemma {:induction false} TotalBalances(ops: seq<TradeOp>)
    ensures var a := RunOf(ops);
            && Keyed(a.positions)
            && SumOf(PnLOf, a.trades) == TotalCash(ops) + BookTotal(a.positions) + TotalOverpaid(ops)
  {
    if ops != [] {
      TotalBalances(ops[..|ops| - 1]);
      RunBalances(ops, "");
      TotalMoves(RunOf(ops[..|ops| - 1]), ops[|ops| - 1]);
    }
  }

  /** What `UpdateEquity` reports after a run. */
  ghost function ReportedEquity(initial: real, ops: seq<TradeOp>, prices: Prices): real {
    var a := RunOf(ops);
    initial + SumOf(PnLOf, a.trades) + MarketValue(a.positions, prices, a.positions.Keys)
  }

  /** The money that is left, and what is held at market prices. */
  ghost function TrueEquity(initial: real, ops: seq<TradeOp>, prices: Prices): real {
    var a := RunOf(ops);
    initial + TotalCash(ops) + MarketValue(a.positions, prices, a.positions.Keys)
  }

  /** Opening a position takes nothing from the balance. So the reported equity counts what is held at
      entry prices once more, and the mispricing of later purchases: it is right if and only if these
      two add up to nothing. */
  lemma EquityIsRightIff(initial: real, ops: seq<TradeOp>, prices: Prices)
    ensures ReportedEquity(initial, ops, prices) - TrueEquity(initial, ops, prices)
         == BookTotal(RunOf(ops).positions) + TotalOverpaid(ops)
    ensures ReportedEquity(initial, ops, prices) == TrueEquity(initial, ops, prices)
       <==> BookTotal(RunOf(ops).positions) + TotalOverpaid(ops) == 0.0
  {
    TotalBalances(ops);
  }

  /** One unit bought at 100, the market price: the equity is reported 100 too high. */
  lemma PositionCountsTwice(initial: real, s: string)
    ensures var ops, prices := [Open(s, 1.0, 100.0, 0)], map[s := 100.0];
            && ReportedEquity(initial, ops, prices) == initial + 100.0
            && TrueEquity(initial, ops, prices) == initial
  {
    var op, prices: Prices := Open(s, 1.0, 100.0, 0), map[s := 100.0];
    var position := Position(s, 1.0, 100.0, 100.0, 0.0, 0);
    assert [op][..0] == [] && [op][0] == op;
    assert RunOf([]) == Account(map[], []);
    assert RunOf([op]) == Account(map[s := position], []);
    assert TotalCash([op]) == -100.0;
    var positions := map[s := position];
    assert positions.Keys == {s} && {s} - {s} == {};
    MarketValueWithout(positions, prices, {s}, s);
  }

  /** One run that reports a profit of 200 where 100 was earned. */
  lemma SecondPurchaseMisprices(s: string)
    ensures var ops := [Open(s, 1.0, 100.0, 0), Open(s, 1.0, 200.0, 1), Close(s, 2.0, 200.0, 2)];
            && s !in RunOf(ops).positions
            && Realised(RunOf(ops).trades, s) == 200.0 && CashFlow(ops, s) == 100.0
  {
    var a, b, c := Open(s, 1.0, 100.0, 0), Open(s, 1.0, 200.0, 1), Close(s, 2.0, 200.0, 2);
    var held := Position(s, 1.0, 100.0, 100.0, 0.0, 0);
    OneMoreOp([], a, s);
    assert RunOf([a]).positions == map[s := held];
    OneMoreOp([a], b, s);
    assert RunOf([a, b]).positions == map[s := held.(quantity := 2.0)];
    OneMoreOp([a, b], c, s);
    assert [a] + [b] == [a, b] && [a, b] + [c] == [a, b, c] && [] + [a] == [a];
    RunBalances([a, b, c], s);
  }

  // ----- the summary of a run -----

  datatype Summary = Summary(
    initialBalance: real, finalBalance: real, totalTrades: int, winningTrades: int, losingTrades: int,
    winRate: real, totalPnL: real, profitFactor: real, avgWin: real, avgLoss: real, maxDrawdown: real)

  const WinOf: Trade -> real := (t: Trade) => if t.pnl > 0.0 then t.pnl else 0.0
  const LossOf: Trade -> real := (t: Trade) => if t.pnl > 0.0 then 0.0 else -t.pnl

  ghost function Wins(trades: seq<Trade>): nat {
    if trades == [] then 0 else Wins(trades[1..]) + (if trades[0].pnl > 0.0 then 1 else 0)
  }

  ghost predicate SumsUp(r: Summary, trades: seq<Trade>) {
    && r.totalPnL == SumOf(PnLOf, trades) == SumOf(WinOf, trades) - SumOf(LossOf, trades)
    && r.totalTrades == |trades| == r.winningTrades + r.losingTrades && r.winningTrades == Wins(trades)
  }

  ghost predicate IsShare(rate: real, k: int, n: int) {
    0.0 <= rate <= 1.0 && rate * n as real == k as real
  }

  ghost predicate RatesWins(r: Summary) {
    IsShare(r.winRate, r.winningTrades, r.totalTrades)
  }

  ghost predicate IsFactor(f: real, won: real, lost: real) {
    if lost > 0.0 then f * lost == won && (f > 1.0 <==> won > lost) else f == 0.0
  }

  ghost predicate RatesProfit(r: Summary, trades: seq<Trade>) {
    IsFactor(r.profitFactor, SumOf(WinOf, trades), SumOf(LossOf, trades))
  }

  ghost predicate IsAverage(avg: real, sum: real, n: int) {
    avg * n as real == sum
  }

  ghost predicate AveragesTrades(r: Summary, trades: seq<Trade>) {
    && IsAverage(r.avgWin, SumOf(WinOf, trades), r.winningTrades)
    && IsAverage(r.avgLoss, SumOf(LossOf, trades), r.losingTrades)
  }

  // The guarded quotients of `generateResult`: zero where there is nothing to divide by.

  method Share(k: int, n: int) returns (r: real)
    requires 0 <= k <= n
    ensures IsShare(r, k, n)
  {
    r := 0.0;
    if n > 0 {
      ProperFraction(k as real, n as real);
      r := k as real / n as real;
    }
  }

  method Average(sum: real, n: int) returns (r: real)
    requires n >= 0 && (n == 0 ==> sum == 0.0)
    ensures IsAverage(r, sum, n)
  {
    r := 0.0;
    if n > 0 {
      DivideBack(sum, n as real);
      r := sum / n as real;
    }
  }

  method Factor(won: real, lost: real) returns (r: real)
    ensures IsFactor(r, won, lost)
  {
    r := 0.0;
    if lost > 0.0 {
      DivideBack(won, lost);
      QuotientOrder(won, lost, 1.0);
      r := won / lost;
    }
  }

  lemma {:induction false} WinsAndLosses(trades: seq<Trade>)
    ensures SumOf(WinOf, trades) - SumOf(LossOf, trades) == SumOf(PnLOf, trades)
    ensures 0 <= Wins(trades) <= |trades|
    ensures Wins(trades) == 0 ==> SumOf(WinOf, trades) == 0.0
    ensures Wins(trades) == |trades| ==> SumOf(LossOf, trades) == 0.0
    ensures SumOf(LossOf, trades) >= 0.0
  {
    if trades != [] {
      WinsAndLosses(trades[1..]);
    }
  }

  lemma TracksOneMore(curve: seq<EquityPoint>, point: EquityPoint, peak: real)
    requires Tracks(curve)
    requires peak == if point.equity > Peak(Equities(curve)) then point.equity else Peak(Equities(curve))
    requires point.drawdown == RelativeDrop(peak, point.equity)
    ensures Tracks(curve + [point]) && Peak(Equities(curve + [point])) == peak
  {
    var c := curve + [point];
    assert c[..|c| - 1] == curve;
    var e := Equities(c);
    assert e[..|e| - 1] == Equities(curve);
    forall n | 0 <= n < |c|
      ensures c[n].drawdown == Drawdown(Equities(c[..n + 1]))
    {
      if n < |curve| {
        assert c[..n + 1] == curve[..n + 1];
      } else {
        assert c[..n + 1] == c;
      }
    }
  }

  /** The positions in `todo` are still to be marked and to be counted. */
  ghost predicate MarkInv(was: Positions, now: Positions, prices: Prices, todo: set<string>, value: real) {
    && todo <= was.Keys == now.Keys
    && value + MarketValue(was, prices, todo) == MarketValue(was, prices, was.Keys)
    && forall s :: s in was.Keys ==> now[s] == if s in todo then was[s] else Marked(was[s], prices)
  }

  lemma MarkStep(was: Positions, now: Positions, prices: Prices, todo: set<string>, s: string, value: real)
    requires Keyed(was) && MarkInv(was, now, prices, todo, value) && s in todo
    ensures now[s] == was[s]
    ensures if was[s].symbol in prices
            then MarkInv(was, now[s := Marked(was[s], prices)], prices, todo - {s},
                         value + was[s].quantity * prices[was[s].symbol])
            else MarkInv(was, now, prices, todo - {s}, value)
  {
    MarketValueWithout(was, prices, todo, s);
  }

  class BacktestPortfolio {
    var balance: real
    var positions: Positions
    var trades: seq<Trade>
    var equityCurve: seq<EquityPoint>
    var peakEquity: real
    const initialBalance: real

    ghost predicate Valid()
      reads this
    {
      && Keyed(positions)
      && balance == initialBalance + SumOf(PnLOf, trades)
      && peakEquity == Peak(Equities(equityCurve))
      && Tracks(equityCurve)
    }

    constructor (initial: real)
      ensures Valid() && initialBalance == balance == initial
      ensures positions == map[] && trades == [] && equityCurve == []
    {
      balance := initial;
      initialBalance := initial;
      positions := map[];
      trades := [];
      equityCurve := [];
      peakEquity := 0.0;
    }

    method OpenPosition(s: string, quantity: real, price: real, now: int) returns (r: Result<()>)
      requires Valid()
      modifies this`positions
      ensures Valid()
      ensures var o := Opened(old(positions), s, quantity, price, now);
              if o.Ok? then r == Ok(()) && positions == o.value else r == Err(o.error) && positions == old(positions)
    {
      if s in positions && positions[s].quantity + quantity < 0.0 {
        return Err(InsufficientBalance);
      }
      if s !in positions {
        positions := positions[s := Position(s, quantity, price, price, 0.0, now)];
      } else {
        positions := positions[s := positions[s].(quantity := positions[s].quantity + quantity)];
      }
      return Ok(());
    }

    method ClosePosition(s: string, quantity: real, price: real, now: int) returns (r: Result<Trade>)
      requires Valid()
      modifies this`positions, this`balance, this`trades
      ensures Valid()
      ensures var c := Closed(old(positions), s, quantity, price, now);
              if c.Ok? then
                r == Ok(c.value.1) && positions == c.value.0 && trades == old(trades) + [c.value.1]
                && balance == old(balance) + c.value.1.pnl
              else r == Err(c.error) && positions == old(positions) && trades == old(trades) && balance == old(balance)
    {
      if s !in positions {
        return Err(PositionNotFound);
      }
      var pos := positions[s];
      if quantity > pos.quantity {
        return Err(InsufficientPosition);
      }
      var pnl := quantity * (price - pos.entryPrice);
      var trade := Trade(pos.symbol, quantity, pos.entryPrice, price, pnl, pos.openedAt, now);
      assert trade == ClosingTrade(pos, quantity, price, now);
      balance := balance + trade.pnl;
      SumConcat(PnLOf, trades, [trade]);
      trades := trades + [trade];
      var left := pos.quantity - quantity;
      if left <= 0.0 {
        positions := positions - {s};
      } else {
        positions := positions[s := pos.(quantity := left)];
      }
      return Ok(trade);
    }

    method AddEquity(now: int, equity: real)
      requires peakEquity == Peak(Equities(equityCurve)) && Tracks(equityCurve)
      modifies this`equityCurve, this`peakEquity
      ensures peakEquity == Peak(Equities(equityCurve)) && Tracks(equityCurve)
      ensures equityCurve == old(equityCurve) + [EquityPoint(now, equity, RelativeDrop(peakEquity, equity))]
    {
      if equity > peakEquity {
        peakEquity := equity;
      }
      var point := EquityPoint(now, equity, RelativeDrop(peakEquity, equity));
      TracksOneMore(equityCurve, point, peakEquity);
      equityCurve := equityCurve + [point];
    }

    /** The loop of `UpdateEquity`, over the positions in any order. */
    method MarkToMarket(prices: Prices) returns (value: real)
      requires Keyed(positions)
      modifies this`positions
      ensures Keyed(positions)
      ensures positions == AllMarked(old(positions), prices)
      ensures value == MarketValue(old(positions), prices, old(positions).Keys)
    {
      value := 0.0;
      var todo := positions.Keys;
      ghost var was := positions;
      while todo != {}
        invariant MarkInv(was, positions, prices, todo, value)
        decreases todo
      {
        var s :| s in todo;
        var pos := positions[s];
        MarkStep(was, positions, prices, todo, s, value);
        if pos.symbol in prices {
          value := value + pos.quantity * prices[pos.symbol];
          positions := positions[s := Marked(pos, prices)];
        }
        todo := todo - {s};
      }
    }

    method MarkAll(prices: Prices) returns (value: real)
      requires Keyed(positions)
      modifies this`positions
      ensures Keyed(positions)
      ensures positions == AllMarked(old(positions), prices) && IsMark(old(positions), positions, prices)
      ensures value == MarketValue(old(positions), prices, old(positions).Keys)
      ensures positions.Keys <= prices.Keys ==>
        value == BookTotal(old(positions)) + Unrealised(positions, positions.Keys)
    {
      AllMarkedIsMark(positions, prices);
      MarkAddsUp(positions, AllMarked(positions, prices), prices);
      value := MarkToMarket(prices);
    }

    /** Marks the positions to market and appends one point to the equity curve. */
    method UpdateEquity(now: int, prices: Prices)
      requires Valid()
      modifies this`positions, this`equityCurve, this`peakEquity
      ensures Valid()
      ensures positions == AllMarked(old(positions), prices) && IsMark(old(positions), positions, prices)
      ensures |equityCurve| == |old(equityCurve)| + 1 && equityCurve[..|old(equityCurve)|] == old(equityCurve)
      ensures var point := equityCurve[|old(equityCurve)|];
              && point.timestamp == now
              && point.equity == balance + MarketValue(old(positions), prices, old(positions).Keys)
              && (positions.Keys <= prices.Keys ==>
                    point.equity == balance + BookTotal(old(positions)) + Unrealised(positions, positions.Keys))
    {
      var value := MarkAll(prices);
      AddEquity(now, balance + value);
    }

    method CalculateMaxDrawdown() returns (m: real)
      requires Valid()
      ensures m == MaxDrawdown(equityCurve)
      ensures (forall k :: 0 <= k < |equityCurve| ==> equityCurve[k].equity >= 0.0) ==>
        IsWorstLoss(Equities(equityCurve), m) && m <= 1.0
    {
      m := 0.0;
      for i := 0 to |equityCurve|
        invariant m == MaxDrawdown(equityCurve[..i])
      {
        assert equityCurve[..i + 1][..i] == equityCurve[..i];
        if equityCurve[i].drawdown > m {
          m := equityCurve[i].drawdown;
        }
      }
      assert equityCurve[..|equityCurve|] == equityCurve;
      if forall k :: 0 <= k < |equityCurve| ==> equityCurve[k].equity >= 0.0 {
        MaxDrawdownIsWorstLoss(equityCurve);
      }
    }

    /** The counting loop of `generateResult`. */
    method Tally() returns (wins: int, losses: int, total: real, won: real, lost: real)
      ensures total == SumOf(PnLOf, trades) && won == SumOf(WinOf, trades) && lost == SumOf(LossOf, trades)
      ensures wins == Wins(trades) && losses == |trades| - wins
    {
      wins, losses, total, won, lost := 0, 0, 0.0, 0.0, 0.0;
      for i := 0 to |trades|
        invariant wins == Wins(trades) - Wins(trades[i..]) && wins + losses == i
        invariant total == SumOf(PnLOf, trades) - SumOf(PnLOf, trades[i..])
        invariant won == SumOf(WinOf, trades) - SumOf(WinOf, trades[i..])
        invariant lost == SumOf(LossOf, trades) - SumOf(LossOf, trades[i..])
      {
        assert trades[i..][1..] == trades[i + 1..] && trades[i..][0] == trades[i];
        var pnl := trades[i].pnl;
        if pnl > 0.0 {
          wins := wins + 1;
          won := won + pnl;
        } else {
          losses := losses + 1;
          lost := lost + (if pnl < 0.0 then -pnl else pnl);
        }
        total := total + pnl;
      }
    }

    /** The books balance: the final balance is the initial one plus all realised profit, every
        trade is either a win or a loss, and the ratios mean what their names say. */
    method GenerateResult() returns (r: Summary)
      requires Valid()
      ensures r.finalBalance == balance && r.initialBalance == initialBalance
      ensures r.maxDrawdown == MaxDrawdown(equityCurve)
      ensures r.finalBalance == r.initialBalance + r.totalPnL
      ensures SumsUp(r, trades) && RatesWins(r) && RatesProfit(r, trades) && AveragesTrades(r, trades)
    {
      var wins, losses, total, won, lost := Tally();
      WinsAndLosses(trades);
      var winRate := Share(wins, |trades|);
      var profitFactor := Factor(won, lost);
      var avgWin := Average(won, wins);
      var avgLoss := Average(lost, losses);
      var m := CalculateMaxDrawdown();
      r := Summary(initialBalance, balance, |trades|, wins, losses, winRate, total, profitFactor, avgWin, avgLoss, m);
    }
  }

  /** A portfolio that carries out any operations is in the state of that run. */
  method Trading(portfolio: BacktestPortfolio, ops: seq<TradeOp>)
    requires portfolio.Valid() && portfolio.positions == map[] && portfolio.trades == []
    modifies portfolio
    ensures portfolio.Valid() && Account(portfolio.positions, portfolio.trades) == RunOf(ops)
  {
    for i := 0 to |ops|
      invariant portfolio.Valid() && Account(portfolio.positions, portfolio.trades) == RunOf(ops[..i])
    {
      assert ops[..i + 1][..i] == ops[..i];
      match ops[i]
      case Open(s, quantity, price, now) => var _ := portfolio.OpenPosition(s, quantity, price, now);
      case Close(s, quantity, price, now) => var _ := portfolio.ClosePosition(s, quantity, price, now);
      case Mark(now, prices) => portfolio.UpdateEquity(now, prices);
    }
    assert ops[..|ops|] == ops;
  }

  /** The point that is appended after any run carries the reported equity. */
  method MarkAfter(portfolio: BacktestPortfolio, ops: seq<TradeOp>, now: int, prices: Prices) returns (equity: real)
    requires portfolio.Valid() && portfolio.positions == map[] && portfolio.trades == []
    modifies portfolio
    ensures equity == ReportedEquity(portfolio.initialBalance, ops, prices)
    ensures portfolio.positions.Keys <= prices.Keys ==>
      equity == portfolio.initialBalance + SumOf(PnLOf, RunOf(ops).trades)
                + BookTotal(RunOf(ops).positions) + Unrealised(portfolio.positions, portfolio.positions.Keys)
    ensures equity == TrueEquity(portfolio.initialBalance, ops, prices)
       <==> BookTotal(RunOf(ops).positions) + TotalOverpaid(ops) == 0.0
  {
    Trading(portfolio, ops);
    portfolio.UpdateEquity(now, prices);
    equity := portfolio.equityCurve[|portfolio.equityCurve| - 1].equity;
    EquityIsRightIff(portfolio.initialBalance, ops, prices);
  }
}
