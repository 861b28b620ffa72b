# Verified model of the trading framework's algorithms

This project models the algorithmic core of a Go trading framework in Dafny and proves what that
core promises. It covers ten components, a file or a few for each:

| file | component |
|---|---|
| `PriceHeap.dfy`, `Splits.dfy`, `OrderBook.dfy` | the backtest order book: a binary heap of price levels, and the orders that add, remove, reprice and consume liquidity |
| `ParameterGrid.dfy`, `GeneDraws.dfy`, `Optimizer.dfy` | the parameter optimizer: the recursive grid enumerator, grid search, the random draws of genes, the genetic loop |
| `CandleAggregator.dfy`, `CandleStages.dfy` | the candle aggregator, and aggregation in two stages |
| `Sorting.dfy`, `Profiler.dfy` | in-place quicksort, the windowed histogram, the Welford timer |
| `EventLog.dfy`, `EventStore.dfy` | the append-only event store, its posting lists and its recovery |
| `RateLimiter.dfy` | the sliding-window rate limiter (the Bybit adapter repeats the same algorithm, `internal/exchanges/bybit/bybit.go:105-126`) |
| `FixedPoint.dfy` | fixed-point prices on int64 with wrap-around |
| `DrawdownPeriods.dfy`, `BacktestPortfolio.dfy`, `FillAccounting.dfy` | drawdown segmentation, the backtest portfolio, fills in the core engine |
| `OrderLifecycle.dfy` | the order manager as interleaved atomic steps |
| `ExecutionStrategies.dfy` | the trailing stop and TWAP |
| `RealSums.dfy`, `IntMath.dfy`, `Options.dfy` | sums over sequences, facts about products and quotients, and the optional type, shared by the others |

`dafny verify dfyconfig.toml` checks everything.

## Conventions

- Code that changes objects is modelled by classes with the same fields, and each method is proved
  against a function or predicate of the old state; the properties of whole runs are lemmas about
  those functions, or invariants carried by the methods themselves.
- `decimal.Decimal` and `float64` are `real`, and division is exact. The int64 of fixed-point prices
  is a bounded `int` with explicit wrap-around and truncating division.
- Times and durations are `int`. Clocks and random draws are parameters or nondeterministic choices,
  so every theorem holds for all of them.
- A section that runs under a lock is one atomic step. UUIDs are opaque ids. The event file is a
  sequence of records, and JSON is taken to be lossless. A backtest is a deterministic function of
  the genes that may fail.
- Objects that only one slot of their own component refers to (price levels, candles, the positions of
  a portfolio, individuals) are values in the sequence or map that holds them. Events, orders,
  aggregators and the position that a trailing stop follows are objects, because sharing them is
  observable.

## Where the code does less than it seems to

Each of these is proved: when the code does what one would expect, and an input on which it does not.

- The ask heap is ordered like the bid heap, so "best ask" is the highest ask; it is the lowest one
  if and only if all asks stand at one price. A market buy pays the most any split could pay; it pays
  the least if and only if it is for the whole side or more, or all asks have one price
  (`OrderBook.BuyAtTheFarAsk` runs into it).
- A limit order reports its full size; that much leaves the book if and only if the root level holds it
  (`OrderBook.LimitOverreports`).
- The events of a batch are not posted: reading an aggregate gives its whole log if and only if none of
  its events came in a batch (`EventStores.BatchIsInvisible`). After any run the events in memory are
  numbered if and only if no object was stamped while the log referred to it (`EventStores.AppendedTwice`).
  Reloading the file repairs both. The indexes that loading a file builds list the slots of its events if
  and only if the records are numbered 1, 2, 3 and so on without a gap (`EventStores.GappedFile`).
- A price compares correctly with all finer prices of a scale if and only if its own value at that scale
  is an int64 (`FixedPoint.OverflowTurnsTheOrder`). Rounding is off by at most half a unit if and only if
  the value plus half a unit is not negative or divides evenly (`FixedPoint.RoundMissesHalfUnit`). It
  keeps the order of prices at any scales, but a negative price can be rounded past one that has few
  enough decimals to stay as it is, under an exact condition (`FixedPoint.RoundingStepsOver`).
- The histogram's mean divides the all-time sum by the window's size: it is the window's mean if and only
  if what left the window adds up to zero (`Profiler.HistogramOfOnes`). Both `StdDev` fields hold a
  variance: without dropped values they are the deviation if and only if that is zero or one
  (`Profiler.HistogramOfTwo`, `Profiler.TimerOfThree`). A timer's minimum and maximum are recorded values
  if and only if some value reaches their starting bounds (`Profiler.TimerBelowBound`).
- The profit that a backtest position shows is right after every mark, and opening more of it or closing a
  part leaves it right if and only if the price has not moved off the entry price
  (`BacktestPortfolios.ProfitGoesStale`).
- A drawdown period always reports depth zero and its recovery as the trough, which is never right
  (`DrawdownPeriods.FallByFive`).
- Later purchases keep the first entry price of a backtest position: once a symbol is flat, the realised
  profit of any run is the cash earned if and only if those purchases were mispriced by nothing overall
  (`BacktestPortfolios.SecondPurchaseMisprices`). Opening a position takes nothing from the balance: after
  any run the reported equity is the money left plus the market value of what is held if and only if what
  is held at entry prices and those mispricings add up to nothing
  (`BacktestPortfolios.PositionCountsTwice`).
- An order is filled if and only if the second step of its execution was taken, cancelled or not, and
  stays cancelled if and only if no step of its execution follows a successful cancellation
  (`OrderLifecycle.CancelledOrderIsFilled`).
- Aggregating candles in two stages agrees with aggregating them once, for every history, if and only if
  one duration divides the other; a week does not divide a month (`CandleStages.WeeksMisplaceMonths`).
- Under the objectives `calmar` and `sortino` every success scores zero: grid search returns the best
  ratio, whatever its sort does with equals, if and only if all survivors have the same one
  (`GeneticOptimizer.BlindPick`). Rounding to the step comes last, after the draw and after the clamp: with
  a positive step no creation and no mutations ever leave the range, whatever the draws, if and only if the
  lower end does not round down and the upper end does not round up, or rounds up from exactly half a step
  in a range of at most five steps (`GeneDraws.CreationLeaves`, `GeneDraws.LongRangeLeaves`).

## Model

| member | source | states |
|---|---|---|
| PriceHeaps.RootIsMax | internal/backtest/orderbook_sim.go:457-459 | in any slice whose parent edges all hold, the root carries the greatest price |
| PriceHeaps.PriceHeap.Push | internal/backtest/orderbook_sim.go:465-467 | `heap.Push` sifts up: the heap order holds again and exactly the pushed level is added |
| PriceHeaps.PriceHeap.Pop | internal/backtest/orderbook_sim.go:469-476 | `heap.Pop` returns the old root, removes exactly it and restores the heap order |
| PriceHeaps.PriceHeap.Remove | internal/backtest/orderbook_sim.go:442-444 | `heap.Remove` at any index removes exactly that level, sifting down or else up |
| PriceHeaps.PriceHeap.Init | internal/backtest/orderbook_sim.go:145-146 | from arbitrary slots, `heap.Init` reaches a heap of the same levels |
| PriceHeaps.UpStep | internal/backtest/orderbook_sim.go:461-463 | one exchange with the parent moves the only broken edge one level up |
| PriceHeaps.DownStep | internal/backtest/orderbook_sim.go:461-463 | one exchange with the larger child moves the only broken edges one level down |
| Splits.SplitBound | internal/backtest/orderbook_sim.go:318-330 | for every cut price, no split of a quantity over the levels earns more than the cut per unit plus all excess above the cut |
| OrderBook.GreedyStep | internal/backtest/orderbook_sim.go:318-330 | taking from the dearest level keeps the proceeds at that bound for every cut below the prices taken |
| OrderBook.GreedyIsBest | internal/backtest/orderbook_sim.go:318-330 | a walk that keeps the bound has earned as much as any split of the same quantity can |
| OrderBook.ConsumeBest | internal/backtest/orderbook_sim.go:291-330 | the walk ends for every heap, quantity is conserved, the fill is the smaller of size and book, it comes out of actual levels, and no split earns more |
| OrderBook.OrderBookSimulator.SimulateMarketOrder | internal/backtest/orderbook_sim.go:285-341 | fills exactly min(size, total), at the average of a best split, records the trade, and leaves the other side alone; no trade exactly if size is not positive or the side is empty |
| OrderBook.MarketBuyIsCheapestIff | internal/backtest/orderbook_sim.go:290-309 | a market buy is a cheapest one if and only if its size is at least what is on offer, or all asks have one price |
| OrderBook.BuyAtTheFarAsk | internal/backtest/orderbook_sim.go:188-196 | with asks at 100 and 101, the best ask is reported as 101 and half a unit costs 101 a unit |
| OrderBook.LimitOverreports | internal/backtest/orderbook_sim.go:239-283 | a limit order for five units reports five out of a book that holds two |
| Splits.DearestIsCheapestIff | internal/backtest/orderbook_sim.go:457-459 | dearest and cheapest way to take a quantity coincide only when nothing, everything, or levels of one price are taken |
| OrderBook.OrderBookSimulator.SimulateLimitOrder | internal/backtest/orderbook_sim.go:239-283 | trades at the root price if it crosses; the reported size leaves the book if and only if the root level holds it |
| OrderBook.OrderBookSimulator.AddLiquidity | internal/backtest/orderbook_sim.go:409-424 | adds exactly the named level to the named side and keeps both heaps |
| OrderBook.OrderBookSimulator.RemoveLiquidity | internal/backtest/orderbook_sim.go:426-451 | lowers or removes the first slot at exactly this price and no other level; nothing happens if there is none |
| OrderBook.OrderBookSimulator.UpdateMidPrice | internal/backtest/orderbook_sim.go:117-147 | the mid price moves by the draw and stays at least 1, every level gets the price of its slot, quantities stay, heaps are rebuilt; afterwards the roots are the nearest bid and the farthest ask |
| OrderBook.PricesSpreadOut | internal/backtest/orderbook_sim.go:133-143 | the prices given to slots fall for bids and rise for asks, rounding included |
| OrderBook.SlotPrices | internal/backtest/orderbook_sim.go:133-143 | the price of a slot is the nearest whole cent to the mid price less (more) half the spread and a distance that starts at 0.000101 of the mid price and grows by 1.01 a slot |
| OrderBook.QuotesSurroundMid | internal/backtest/orderbook_sim.go:133-143 | bid and ask of a slot lie around the mid price, within a cent of each other's mirror image, and at least half a spread off it but for half a cent |
| OrderBook.RepricedIsRequoted | internal/backtest/orderbook_sim.go:117-147 | so after the mid price has moved, every level of either side stands at the price for its slot |
| OrderBook.MoveMarket | internal/backtest/orderbook_sim.go:117-147 | the same of the book itself: quantities and orders stay with their slots, bids stay below and asks above |
| OrderBook.NewBookRises | internal/backtest/orderbook_sim.go:81-107 | a new book is two ladders of such prices; their sizes start at 0.101, grow by 1.01 a rung and are rounded to millionths, with one order for two rungs but at least one |
| OrderBook.NewMarket | internal/backtest/orderbook_sim.go:55-107 | the same of the book that the constructor returns |
| OrderBook.OrderBookSimulator.constructor | internal/backtest/orderbook_sim.go:55-107 | a new book is one heap of positive levels a side, one level for each depth rung, with the nearest bid on top |
| OrderBook.OrderBookSimulator.GetBestBid | internal/backtest/orderbook_sim.go:178-186 | the greatest bid price in the book, or zero without bids |
| OrderBook.OrderBookSimulator.GetBestAsk | internal/backtest/orderbook_sim.go:188-196 | the greatest ask price, which is the least one if and only if there is one price |
| OrderBook.Session | internal/backtest/orderbook_sim.go:117-451 | after any sequence of operations both sides are heaps of positive levels and the reported best bid is the greatest bid |
| ParameterGrid.RangeIff | internal/backtest/optimizer/optimizer.go:556-560 | the stepping loop visits exactly the points min + i * step that do not pass max |
| ParameterGrid.ListingIsLexicographic | internal/backtest/optimizer/optimizer.go:536-563 | the recursion reaches every continuation of an index vector, and in strictly increasing lexicographic order |
| ParameterGrid.Enumerator.Generate | internal/backtest/optimizer/optimizer.go:537-561 | although all levels write into one map, a call appends exactly the combinations below its choices and leaves the choices above it settled |
| ParameterGrid.GenerateAllCombinations | internal/backtest/optimizer/optimizer.go:529-565 | unless it reaches a range that is walked forever, it terminates and returns the combination of every index vector in listing order; nothing without parameters |
| ParameterGrid.GridIsLexicographic | internal/backtest/optimizer/optimizer.go:529-565 | one combination per index vector, all vectors, in strict lexicographic order |
| ParameterGrid.GridPointIff | internal/backtest/optimizer/optimizer.go:529-565 | with distinct names and positive steps the result holds exactly the points of the Cartesian product |
| ParameterGrid.GridHasNoRepeats | internal/backtest/optimizer/optimizer.go:529-565 | no point is listed twice, unless a parameter lists a value twice |
| ParameterGrid.GridRepeatsIff | internal/backtest/optimizer/optimizer.go:529-565 | a point is listed twice if and only if some parameter lists a value twice and no range is empty |
| GeneticOptimizer.Optimizer.GridSearch | internal/backtest/optimizer/optimizer.go:202-262 | given up with the population as it was exactly if the context is done before some combination; otherwise the population is the sorted rearrangement of all surviving combinations, there is no result exactly when none survives, and no survivor is better than the result by what the objective asks of a backtest |
| GeneticOptimizer.Optimizer.GridBestIsBest | internal/backtest/optimizer/optimizer.go:241-261 | grid search returns a grid point at least as fit as every point of the product whose backtest succeeds, and none of these is better by what the objective asks of a backtest |
| GeneticOptimizer.FitterIff | internal/backtest/optimizer/optimizer.go:482-503 | one fitness is greater than another if and only if its backtest ranks higher: by Sharpe ratio, by return, or else by a trade at fixed rates that makes it better all round; a failure ranks like a score of -1000 |
| GeneticOptimizer.CompositeIff | internal/backtest/optimizer/optimizer.go:496-502 | of two composite scores one is higher if and only if its metrics, traded at 3 of Sharpe ratio for 4 of drawdown, 8 of return or 8 of profit factor, are at least as good everywhere and better somewhere |
| GeneticOptimizer.TradesKeepTheScore | internal/backtest/optimizer/optimizer.go:496-502 | such trades leave the composite score as it is |
| GeneticOptimizer.UnbeatenMeans | internal/backtest/optimizer/optimizer.go:482-503 | what is not beaten has the greatest Sharpe ratio under `sharpe`, the greatest return under `profit`, and under the composite is not dominated in Sharpe ratio, return, profit factor and drawdown at once |
| GeneticOptimizer.Optimizer.SearchFindsBest | internal/backtest/optimizer/optimizer.go:241-261 | the first member of a searched population survives, and no survivor is better by the objective |
| GeneticOptimizer.Optimizer.Optimize | internal/backtest/optimizer/optimizer.go:110-200 | wherever the context is done, if at all: population size is constant, the best fitness of the fully evaluated generations never falls, genes stay where they can come about, no individual of those generations ranks higher than the returned best by its backtest as long as the last population is evaluated, and the run stops early at exactly the first generation that ends 21 without improvement |
| GeneticOptimizer.Optimizer.Abandon | internal/backtest/optimizer/optimizer.go:133-139 | a run whose context is done by an evaluation reports the sorted population, of which any part may be unevaluated; it has not converged, and the history ends with the generation before |
| GeneticOptimizer.Optimizer.Cancel | internal/backtest/optimizer/optimizer.go:116-139 | so a run that is cancelled at any generation, the first included, ends with such a report |
| GeneticOptimizer.Optimizer.RankGeneration | internal/backtest/optimizer/optimizer.go:141-148 | sorts the generation, so that its fittest member comes first, and keeps the count of generations without improvement exact |
| GeneticOptimizer.Optimizer.Advance | internal/backtest/optimizer/optimizer.go:144-175 | from a sorted population, one generation on keeps the history of bests from falling because the first elite carries it over |
| GeneticOptimizer.Optimizer.NextGeneration | internal/backtest/optimizer/optimizer.go:144-171 | the new population has the same size, starts with clones of the elites, stays in the parameter space, and without mutation takes every gene from the old population |
| GeneticOptimizer.Optimizer.EvaluatePopulation | internal/backtest/optimizer/optimizer.go:436-480 | every individual keeps its genes and gets their metrics, and the fitness orders the population as the objective ranks the backtests, failures included; if the context is done, any individual may be left as it was, and otherwise none |
| GeneticOptimizer.Optimizer.TournamentSelect | internal/backtest/optimizer/optimizer.go:422-434 | the fittest of five draws from the population |
| GeneticOptimizer.Optimizer.BuildResult | internal/backtest/optimizer/optimizer.go:512-527 | the population rearranged in descending fitness, and its first member as the best |
| GeneticOptimizer.CountsStep | internal/backtest/optimizer/optimizer.go:143-153 | the counter is past 20 exactly when the last 21 generations brought no improvement |
| GeneticOptimizer.CreateRandomIndividual | internal/backtest/optimizer/optimizer.go:342-362 | a gene for every parameter, each a listed value or, if rounded, a multiple of the step within half a step of the range |
| GeneticOptimizer.Crossover | internal/backtest/optimizer/optimizer.go:378-388 | every gene of the child comes from one of the parents, and the child stays in the parameter space |
| GeneticOptimizer.Mutate | internal/backtest/optimizer/optimizer.go:390-420 | keeps an individual in the parameter space |
| GeneDraws.RandomGene | internal/backtest/optimizer/optimizer.go:345-355 | a new gene is a listed value or what some draw of the range creates |
| GeneDraws.MutatedNumber | internal/backtest/optimizer/optimizer.go:396-416 | a mutated number is what some draw makes of the old one, fits its parameter, and from inside the range moves by at most a tenth of the range and half a step |
| GeneDraws.DrawnIff | internal/backtest/optimizer/optimizer.go:349-349 | the numbers that are drawn are those of the range without its upper end |
| GeneDraws.MoveIff | internal/backtest/optimizer/optimizer.go:396-397 | the moves that mutation draws are those from a tenth of the range down to just under a tenth up |
| GeneDraws.StaysInsideIff | internal/backtest/optimizer/optimizer.go:342-416 | with a positive step, no creation followed by any number of mutations leaves the range if and only if the lower end does not round down and the upper end does not round up, or rounds up from exactly half a step in a range of at most five steps |
| GeneDraws.UnsteppedStaysInside | internal/backtest/optimizer/optimizer.go:342-416 | without a step none ever leaves it |
| GeneticOptimizer.TightGenesStay | internal/backtest/optimizer/optimizer.go:342-416 | so in every population of a run, genes of such parameters lie in their range |
| GeneticOptimizer.Optimizer.BlindSearchIff | internal/backtest/optimizer/optimizer.go:241-261 | under an objective that reads an uncopied ratio, grid search finds the best ratio in every order its sort may leave if and only if all survivors tie |
| GeneticOptimizer.BlindPick | internal/backtest/optimizer/optimizer.go:482-494 | a search by Calmar ratio that returns ratio 1 where 2 is on offer |
| GeneDraws.CreationLeaves | internal/backtest/optimizer/optimizer.go:349-353 | the range from 0 to 1.6 with step 1: drawing 1.52 creates the gene 2 |
| GeneDraws.LongRangeLeaves | internal/backtest/optimizer/optimizer.go:397-416 | the range from 0 to 1.5 with step 1 is never left; in the range from 0 to 5.5 no draw creates 6, but one mutates 5 into it |
| CandleAggregation.StepAggregates | internal/marketdata/marketdata.go:334-359 | one more candle keeps every bucket equal to the fold (first, max, min, last, sum, count) of its candles |
| CandleAggregation.TimeframeAggregator.AddCandle | internal/marketdata/marketdata.go:330-360 | after any history the map holds exactly one fold per nonempty bucket |
| CandleAggregation.Aggregator.OnCandle | internal/marketdata/marketdata.go:321-328 | every timeframe's aggregator takes in the candle, whatever the order of the loop |
| CandleAggregation.Aggregator.constructor | internal/marketdata/marketdata.go:303-319 | one empty aggregator for each timeframe |
| CandleAggregation.DurationsAreBuckets | internal/marketdata/marketdata.go:334-334 | rounding down to a duration gives the last multiple of it, is idempotent, keeps order, and Unix seconds tell its buckets apart |
| CandleAggregation.UnixEpoch | internal/marketdata/marketdata.go:334-334 | bucket keys count seconds from 1970, 719162 days after the zero time |
| CandleAggregation.DurationsRefineIff | internal/marketdata/marketdata.go:334-334 | each coarse bucket is a union of fine ones if and only if the fine duration divides the coarse one |
| CandleAggregation.TimeframesNest | pkg/types/market.go:386-409 | a minute is 60 seconds, and the listed timeframes are a chain of multiples of it up to the week; a month is whole days and not whole weeks |
| CandleAggregation.WeeksDoNotRefineMonths | pkg/types/market.go:386-409 | months can be built from days and not from weeks |
| CandleStages.RangeThroughStage | internal/marketdata/marketdata.go:337-340 | high, low and volume of a second stage are those of the candles themselves, in any order |
| CandleStages.FirstThroughStage | internal/marketdata/marketdata.go:344-352 | in a time-ordered history the first candle of a coarse bucket is the first of its first fine bucket |
| CandleStages.CountThroughStage | internal/marketdata/marketdata.go:341-341 | the count of a second stage is the number of nonempty fine buckets |
| CandleStages.CandlesInOrder | internal/marketdata/marketdata.go:362-381 | the candles of an aggregator, sorted by time, are such a stage |
| CandleStages.TwoStagesAgree | internal/marketdata/marketdata.go:330-360 | for a time-ordered history, aggregating by a duration and then by a multiple of it gives the same buckets as aggregating directly, the count being of nonempty fine buckets |
| CandleStages.TwoStagesAgreeIff | internal/marketdata/marketdata.go:330-360 | that holds for every time-ordered history if and only if the second duration is a multiple of the first |
| CandleStages.OneCandleMoves | internal/marketdata/marketdata.go:334-352 | otherwise a candle at the start of the second coarse bucket ends up in the first one |
| CandleStages.WeeksMisplaceMonths | pkg/types/market.go:386-409 | a candle at the start of the second month ends up in the first month if it goes through weeks |
| CandleStages.TwoAggregatorsAgree | internal/marketdata/marketdata.go:321-360 | the same for three aggregators of dividing durations, one of which was fed the candles of a finer one in order |
| Sorting.Partition | pkg/profiler/profiler.go:748-759 | rearranges the range so that the returned slot separates smaller values from the rest |
| Sorting.QuickSort | pkg/profiler/profiler.go:740-746 | terminates with a sorted permutation and touches nothing outside its range |
| Sorting.SortedAround | pkg/profiler/profiler.go:741-745 | sorting both sides of a partition sorts the whole |
| Statistics.SortedHasRank | pkg/profiler/profiler.go:658-664 | slot k of a sorted listing is the value of rank k, defined by counting |
| Statistics.RanksAreOrdered | pkg/profiler/profiler.go:674-693 | values of higher rank are no smaller, so each rank has one value |
| Statistics.RankIsQuantile | pkg/profiler/profiler.go:674-680 | at most the fraction p of the values lies under the value whose rank is p times the length, rounded down, and more than this fraction does not exceed it |
| Statistics.QuantileIsUnique | pkg/profiler/profiler.go:674-680 | there is only one such value |
| Profiler.Histogram.Record | pkg/profiler/profiler.go:633-644 | the window is the last min(n, 10000) recorded values; count and sum are of all of them |
| Profiler.Histogram.Data | pkg/profiler/profiler.go:646-696 | minimum and maximum are the extremes of the window; each percentile has at most its fraction of the window under it and more than that up to it, and is the maximum from fraction 1 on; mean and spread are what the fields really hold |
| Profiler.RanksAreQuantiles | pkg/profiler/profiler.go:674-693 | the values picked by rank are the values at the fractions |
| Profiler.PercentilesAreOrdered | pkg/profiler/profiler.go:674-693 | ascending fractions report ascending values between minimum and maximum, all recorded ones of the window |
| Profiler.DefaultReport | pkg/profiler/profiler.go:205-205 | with the default six fractions Min <= P50 <= P75 <= P90 <= P95 <= P99 <= P999 <= Max, all from the window, and each field is the value at its own fraction |
| Profiler.ExtremesOfWindow | pkg/profiler/profiler.go:662-663 | minimum and maximum belong to the window and bound it |
| Profiler.MeanIsWindowMeanIff | pkg/profiler/profiler.go:664-664 | the reported mean is the window's mean if and only if the dropped values sum to zero |
| Profiler.HistogramOfOnes | pkg/profiler/profiler.go:646-696 | after ten thousand and one ones the mean is 1.0001 and the maximum 1 |
| Profiler.SpreadOfWindow | pkg/profiler/profiler.go:664-671 | the reported mean misses the window's by the dropped sum per value, and the spread is the window's variance plus the square of that |
| Profiler.SpreadIsVarianceIff | pkg/profiler/profiler.go:666-671 | the reported spread is the window's variance if and only if the dropped values sum to zero, and more otherwise |
| Profiler.SpreadIsDeviationIff | pkg/profiler/profiler.go:666-671 | it is the standard deviation sd of the window if and only if sd squared plus the squared offset of the mean is sd; with nothing dropped, if and only if sd is zero or one |
| Profiler.HistogramOfTwo | pkg/profiler/profiler.go:666-671 | for 0 and 4 the spread is reported as 4 |
| Statistics.WelfordSquares | pkg/profiler/profiler.go:711-714 | one online update of the squared deviations is exact |
| Profiler.Timer.Record | pkg/profiler/profiler.go:698-718 | after any run mean and m2 are the mean and the sum of squared deviations of all recorded values |
| Profiler.Timer.Data | pkg/profiler/profiler.go:720-738 | mean is sum / count and the spread is the two-pass sample variance |
| Profiler.TimerSpreadIsDeviationIff | pkg/profiler/profiler.go:733-735 | the spread is the sample standard deviation if and only if that is zero or one |
| Profiler.TimerOfThree | pkg/profiler/profiler.go:733-735 | for -2, 0 and 2 the spread is reported as 4 |
| Profiler.TimerBelowBound | pkg/profiler/profiler.go:523-523 | after -2 alone the maximum is reported as -1 |
| Profiler.TimerForgetsOrder | pkg/profiler/profiler.go:711-714 | two timers that recorded the same values in any order agree on mean and m2 |
| Profiler.TimerExtremesIff | pkg/profiler/profiler.go:523-523 | minimum and maximum are recorded values if and only if some value reaches the starting bound |
| EventStores.EventStore.Append | pkg/events/store.go:251-274 | the event takes the next number, log, file and both indexes grow by it; numbering survives if and only if the object was not in the log, and in every run the events are numbered if and only if no object was stamped while the log referred to it |
| EventStores.EventStore.AppendBatch | pkg/events/store.go:276-293 | stores the events up to the first that fails, stamps that one too, posts none, and keeps the same account of the numbering |
| EventLogs.PostingsAreSound | pkg/events/store.go:266-269 | every posting list is strictly increasing and names only posted events with its key |
| EventLogs.PostingsAreComplete | pkg/events/store.go:266-269 | every posting list names all posted events with its key |
| EventLogs.PostingsSelect | pkg/events/store.go:311-323 | following a posting list visits the log filtered by its key, in order |
| EventLogs.SelectedIsLogIff | pkg/events/store.go:276-293 | the index shows the whole log of an aggregate if and only if none of its events came in a batch |
| EventLogs.SelectedFromIsTail | pkg/events/store.go:388-406 | replaying from a number visits the end of a full replay |
| EventStores.EventStore.Get | pkg/events/store.go:295-305 | the first posted event with the id, or none exactly if there is none |
| EventStores.EventStore.GetByAggregate | pkg/events/store.go:307-324 | what the index lists under the aggregate, nothing where a number is not in the log; in any run the posted events of the aggregate in log order, which is its whole log if and only if it is fully posted |
| EventStores.EventStore.ReplayFrom | pkg/events/store.go:368-406 | the handler gets the filtered log from a number on, up to its first refusal |
| EventStores.EventStore.Open | pkg/events/store.go:221-249 | opening any file reads its records into memory; each index lists exactly the slots of the events with a key if and only if the records are numbered without a gap, and then the store is one that a run can leave |
| EventStores.EventStore.Load | pkg/events/store.go:425-468 | the load loop takes over every record, lists the number it carries under both keys, and goes on after the last one; what the indexes list are slots if and only if the file is numbered without a gap |
| EventLogs.ListsSlotsIff | pkg/events/store.go:457-458 | the numbers listed under every key are the slots of the records with that key if and only if the records are numbered without a gap |
| EventLogs.LoadedIff | pkg/events/store.go:446-468 | so loading finds the slots of all events in both indexes if and only if the file is numbered without a gap |
| EventLogs.TraceOneMore | pkg/events/store.go:255-258 | one more stamping keeps the events numbered exactly if no stamping so far hit the log |
| EventStores.GappedFile | pkg/events/store.go:425-468 | a file whose one record has number 2: reading its aggregate finds no event, and the next number is 3 |
| EventStores.BatchIsInvisible | pkg/events/store.go:276-293 | an aggregate whose only event came in a batch reads as empty |
| EventStores.AppendedTwice | pkg/events/store.go:251-274 | an event appended twice shows number 2 in both slots |
| EventStores.Reopen | pkg/events/store.go:425-468 | after a restart the events and the sequence are the same, so numbering goes on without gap or repeat, and every event is indexed |
| RateLimits.RateLimiter.Allow | internal/exchanges/exchange.go:68-89 | keeps the requests inside the window in order and grants or refuses by their number |
| RateLimits.RateLimiter.Wait | internal/exchanges/exchange.go:91-95 | ends with a granted request if the limit is positive |
| RateLimits.NothingIsLost | internal/exchanges/exchange.go:75-80 | forgetting old requests never changes what a later call counts |
| RateLimits.GrantedIff | internal/exchanges/exchange.go:82-88 | a call is granted if and only if fewer than limit grants lie in the window that ends with it |
| RateLimits.WindowHoldsAtMostLimit | internal/exchanges/exchange.go:68-89 | in any run under a clock that does not run backwards no window of any position holds more than limit grants |
| FixedPoint.ComputePow10 | pkg/types/precision/precision.go:207-216 | the loop computes the power of ten modulo int64 |
| FixedPoint.RescaleIsExact | pkg/types/precision/precision.go:131-141 | a finer scale keeps the exact value if nothing overflows |
| FixedPoint.RescaleRoundTrip | pkg/types/precision/precision.go:131-141 | rescaling up by at most 18 digits and back is the identity if nothing overflows |
| FixedPoint.RescaleTruncates | pkg/types/precision/precision.go:131-141 | rescaling down by at most 18 digits gives the nearest price of that scale towards zero, and keeps the exact value if and only if the digits cut off are zeros |
| FixedPoint.AddIsExact | pkg/types/precision/precision.go:102-109 | mixed-scale addition is addition of the exact values |
| FixedPoint.SubIsExact | pkg/types/precision/precision.go:111-118 | mixed-scale subtraction is subtraction of the exact values |
| FixedPoint.SubUndoesAdd | pkg/types/precision/precision.go:102-118 | subtracting what was added gives the aligned price back, even where the sum wraps around; without overflow that is the exact value |
| FixedPoint.ComparisonsAreExact | pkg/types/precision/precision.go:163-196 | all five comparisons agree with the exact values |
| FixedPoint.OrderIsTotalAndTransitive | pkg/types/precision/precision.go:163-196 | the order is total, antisymmetric up to Equal, and transitive across three scales |
| FixedPoint.LessIsExactIff | pkg/types/precision/precision.go:172-179 | LessThan is right against all finer prices of a scale if and only if the price's own value at that scale is an int64 |
| FixedPoint.ComparisonsAreExactIff | pkg/types/precision/precision.go:163-196 | so is Equal, and so are all five comparisons together, under the same condition |
| FixedPoint.OverflowTurnsTheOrder | pkg/types/precision/precision.go:172-179 | a concrete overflow where one compares less than zero |
| FixedPoint.RoundIsNearestIff | pkg/types/precision/precision.go:143-149 | rounding is within half a unit if and only if value plus half a unit is not negative or divides evenly |
| FixedPoint.RoundIsNearest | pkg/types/precision/precision.go:143-149 | for prices that are not negative, in exact values |
| FixedPoint.RoundMissesHalfUnit | pkg/types/precision/precision.go:143-149 | -0.9 rounds to 0 |
| FixedPoint.RoundIsMonotone | pkg/types/precision/precision.go:143-149 | rounding keeps the order of exact values, at any two scales and of any sign |
| FixedPoint.RoundAgainstUnchangedIff | pkg/types/precision/precision.go:143-149 | against a price that rounding leaves alone: never below it from above, and not above it from below if and only if the price plus half a unit is not negative or does not pass it |
| FixedPoint.RoundingStepsOver | pkg/types/precision/precision.go:143-149 | -1.0 rounds to 0 while the equal price -1 stays |
| FixedPoint.MidIsBetween | pkg/types/precision/precision.go:372-374 | the mid price of an uncrossed quote lies between bid and ask |
| FixedPoint.MidIsHalf | pkg/types/precision/precision.go:372-374 | the mid price of any quote is half the exact sum of bid and ask, cut off towards zero at the finer of their scales |
| FixedPoint.SpreadSign | pkg/types/precision/precision.go:368-370 | the spread is ask less bid in exact values, and negative if and only if the quote is crossed |
| DrawdownPeriods.DrawdownEndsAtPeak | internal/analytics/performance.go:420-457 | a recovered drawdown can only run from the running peak to the first point that reaches it again |
| DrawdownPeriods.PerformanceAnalyzer.CalculateDrawdownPeriods | internal/analytics/performance.go:420-457 | returns, in order and without overlap, exactly the recovered drawdowns of the curve |
| DrawdownPeriods.ReportIsUnique | internal/analytics/performance.go:420-457 | that description leaves one possible result |
| DrawdownPeriods.DepthIsNeverReported | internal/analytics/performance.go:437-446 | the reported depth is less than every real one, and the reported trough not below the peak |
| DrawdownPeriods.FallByFive | internal/analytics/performance.go:437-446 | the fall from 10 to 5 and back is reported with depth 0 and trough 10 |
| BacktestPortfolios.BacktestPortfolio.UpdateEquity | internal/backtest/engine.go:217-244 | every position with a price shows that price and what it is worth beyond its entry price, and nothing else about positions changes; one point is appended with balance plus market value, which is balance plus book value plus shown profit if all are priced, and the drawdown from the running peak |
| BacktestPortfolios.MarkAddsUp | internal/backtest/engine.go:221-228 | the profits shown after a mark add up to market value less book value of what is priced |
| BacktestPortfolios.ShownProfitIsStaleIff | internal/backtest/engine.go:149-215 | a new position shows its profit; opening more or closing a part leaves the shown profit right if and only if the shown price is the entry price |
| BacktestPortfolios.ProfitGoesStale | internal/backtest/engine.go:175-227 | one unit bought at 100 and marked at 110 still shows a profit of 10 when half of it is sold |
| BacktestPortfolios.DrawdownIsWorstToLast | internal/backtest/engine.go:229-236 | with no negative equity the recorded drawdown is in [0, 1] and the worst loss that ends there |
| BacktestPortfolios.MaxDrawdownIsWorstLoss | internal/backtest/engine.go:401-409 | one running peak is enough: the greatest drawdown is the worst loss over all pairs of points |
| BacktestPortfolios.BacktestPortfolio.CalculateMaxDrawdown | internal/backtest/engine.go:401-409 | the loop computes that maximum |
| BacktestPortfolios.BacktestPortfolio.OpenPosition | internal/backtest/engine.go:149-173 | refuses what would leave a negative quantity, else adds to the position, keeping its first entry price |
| BacktestPortfolios.BacktestPortfolio.ClosePosition | internal/backtest/engine.go:175-215 | refuses what is not held, else realises the profit and removes an emptied position |
| BacktestPortfolios.QuantitiesAddUp | internal/backtest/engine.go:149-215 | opening and closing change what is held by exactly the quantity, and emptying removes the position |
| BacktestPortfolios.RunBalances | internal/backtest/engine.go:149-215 | in every run of opens, closes and marks, realised profit is cash flow plus book value plus what later purchases were mispriced by, and what is held is what was bought, net |
| BacktestPortfolios.ProfitIsCashFlowIff | internal/backtest/engine.go:149-215 | once a symbol is flat, its realised profit is its cash flow if and only if the later purchases were mispriced by nothing overall |
| BacktestPortfolios.TradesComeFromOps | internal/backtest/engine.go:149-215 | in every run each closing trade has the price and time of an operation that opened its symbol, quantity, price and time of one that closed it, and the difference as its profit |
| BacktestPortfolios.ExitsAddUp | internal/backtest/engine.go:175-215 | in every run the quantities of a symbol's closing trades at their exit prices are the money its closes took in |
| BacktestPortfolios.SecondPurchaseMisprices | internal/backtest/engine.go:149-215 | a run that reports a profit of 200 where 100 was earned |
| BacktestPortfolios.TotalBalances | internal/backtest/engine.go:149-215 | in every run all realised profit together is the cash flow plus everything held at entry prices plus all mispricing |
| BacktestPortfolios.EquityIsRightIff | internal/backtest/engine.go:217-244 | the reported equity misses the true one by the book value of what is held plus all mispricing, so it is right if and only if these add up to nothing |
| BacktestPortfolios.PositionCountsTwice | internal/backtest/engine.go:149-227 | with one unit bought at 100, its market price, the equity is reported 100 too high |
| BacktestPortfolios.MarkAfter | internal/backtest/engine.go:217-244 | a portfolio marked after any run adds that reported equity to its curve: the initial balance, all realised profit, book value and shown profit, if everything held is priced |
| BacktestPortfolios.Trading | internal/backtest/engine.go:149-244 | a portfolio that opens, closes and is marked in any order is in the state of that run |
| BacktestPortfolios.BacktestPortfolio.GenerateResult | internal/backtest/engine.go:335-399 | the final balance is the initial one plus all profit, wins and losses partition the trades, and the averages multiply back |
| FillAccounting.Engine.HandleOrderFilled | internal/core/engine/engine.go:415-442 | a fill changes statistics, balance and position as the specification of one fill says |
| FillAccounting.Engine.UpdateBalance | internal/core/engine/engine.go:879-898 | adds to or subtracts from the free balance of one asset and no other |
| FillAccounting.Engine.UpdateFromOrder | internal/core/engine/engine.go:1103-1135 | a buy averages the entry price, a sell lowers the quantity and deletes an emptied position |
| FillAccounting.AverageStays | internal/core/engine/engine.go:1121-1124 | a weighted average stays between the lowest and highest price paid and multiplies back to the cost |
| FillAccounting.BooksAgree | internal/core/engine/engine.go:415-442 | in any run that never oversells, trades, volume and fees add up, each position equals net bought and the free balance, quantity times average is the remaining cost basis, and the average stays within the prices paid since flat |
| OrderLifecycle.Manager.PlaceOrder | internal/core/orders/orders.go:33-59 | placing is the model's place step |
| OrderLifecycle.Manager.ExecuteBegin | internal/core/orders/orders.go:61-66 | the first locked section is the model's begin step |
| OrderLifecycle.Manager.ExecuteFinish | internal/core/orders/orders.go:70-78 | the second locked section is the model's finish step |
| OrderLifecycle.Manager.PublishFill | internal/core/orders/orders.go:87-91 | publishing the fill is the model's publish step |
| OrderLifecycle.Manager.CancelOrder | internal/core/orders/orders.go:94-121 | refuses unknown, filled and cancelled orders, and is otherwise the model's cancel step |
| OrderLifecycle.EveryRunKeepsInv | internal/core/orders/orders.go:33-121 | under every interleaving `pending` is exactly the pending orders and `completed` exactly the filled ones, filled orders are full, and none publishes two fills |
| OrderLifecycle.FilledForever | internal/core/orders/orders.go:70-78 | nothing about a filled order ever changes again |
| OrderLifecycle.CancelledOrderIsFilled | internal/core/orders/orders.go:61-121 | a run that cancels an order at once and ends with it filled |
| OrderLifecycle.FilledIffExecuted | internal/core/orders/orders.go:61-121 | an order is filled if and only if its second execution step was taken, cancelled or not |
| OrderLifecycle.CancelOutcomeIs | internal/core/orders/orders.go:94-109 | what a cancellation answers, from the actions so far: not found exactly before the order is placed, filled exactly after its second execution step, already cancelled exactly while an earlier one sticks, and otherwise it succeeds |
| OrderLifecycle.SecondCancelIsRefused | internal/core/orders/orders.go:61-121 | a second cancellation is refused, and succeeds again once the execution has begun in between |
| OrderLifecycle.CancelSticksIff | internal/core/orders/orders.go:61-121 | an order is cancelled in the end if and only if no step of its execution follows a successful cancellation |
| OrderLifecycle.CancelledHoldsCancelledIff | internal/core/orders/orders.go:94-121 | `cancelled` holds exactly the cancelled orders if and only if every order that was ever cancelled stays so |
| ExecutionStrategies.TrailingStopStrategy.OnStart | internal/strategies/advanced.go:412-433 | follows the first long position in the symbol, or stays as it was |
| ExecutionStrategies.TrailingStopStrategy.OnTick | internal/strategies/advanced.go:435-472 | one tick is the machine's step, and a sale submits what the position holds at that moment |
| ExecutionStrategies.SellsAtFirstBreach | internal/strategies/advanced.go:435-472 | the machine sells at exactly the first breach as seen with hindsight |
| ExecutionStrategies.SellsOnceAtFraction | internal/strategies/advanced.go:435-472 | at most one sale, at the first bid at or below (1 - fraction) times the highest of start price and bids so far |
| ExecutionStrategies.LevelNeverFalls | internal/strategies/advanced.go:443-452 | the stop level never falls while the stop is active |
| ExecutionStrategies.TWAPStrategy.OnTick | internal/strategies/advanced.go:80-131 | an order is placed if and only if the engine takes it, the target is not reached and a whole interval has passed since that of the last order; it is for a slice or what is left, and remaining plus executed stays the target; the interval is needed only while there is something left to buy |
| ExecutionStrategies.TickBuysIff | internal/strategies/advanced.go:94-121 | the same of one step of the specification |
| ExecutionStrategies.TwapKeepsItsPlan | internal/strategies/advanced.go:80-131 | any run buys in equal slices, never beyond the target, at most one order an interval that has passed; a run that has reached its target ends no earlier than start plus all slices |
| ExecutionStrategies.TargetReachedIff | internal/strategies/advanced.go:80-131 | under a clock that does not run backwards a run buys one slice for each interval after the first in which the engine takes an order, and reaches its target if and only if there are as many of these as slices |
| ExecutionStrategies.EverySliceIsBought | internal/strategies/advanced.go:80-131 | so with such a tick in each of the intervals 1 to the number of slices the whole target is bought |

## Left out

- FixedPoint.Price: scale differences that overflow int32 are not modelled.
- `Quantity` in `pkg/types/precision/precision.go` repeats the code of `Price`, so it is not written twice.
- CandleAggregation.Candle: candles are values in the map, so a caller that keeps a pointer from `GetCandles` and sees it change later is not captured; `EndTime`, `QuoteVolume` and `TakerBuyVolume`, which aggregation drops, are not fields.
- GeneticOptimizer.Optimizer.Optimize: `Workers` of zero, with which the evaluation blocks forever, is not modelled. The starting bound for the best fitness is a field, not the literal float.
- GeneticOptimizer.Optimizer.EvaluatePopulation: the parallel workers write disjoint individuals and are a loop here, which skips any of them once the context is done.
- `BayesianOptimize` and `GetStatistics`: they only sample or read.
- ParameterGrid.GenerateAllCombinations: parameter lists on which the source never returns are excluded: a range without values, not empty, whose step is not positive, and with no empty range before it.
- Profiler.Timer.Data: the rate, which reads the clock, is not modelled. Counters and gauges are plain accumulators.
- Profiler.Histogram.Data: a fraction negative enough to index below slot zero panics in the source and is excluded.
- EventStores.EventStore.Append: subscribers, snapshots (`saveSnapshot`, `LoadSnapshot`), `GetByType` and `GetRange` are not modelled; a write to the file succeeds or fails as a parameter says.
- EventStores.EventStore.Load: a file is a sequence of records; text that is not an event, which the decoder cannot get past or skips, is not modelled.
- OrderBook.OrderBookSimulator.SimulateMarketOrder: timestamps and trade ids, and the read-only reports (`GetVWAP`, `GetImbalance`, order flow), are not modelled. Price levels are values in the heap's slots.
- BacktestPortfolios.MaxDrawdownIsWorstLoss: curves with negative equity are outside the claim.
- BacktestPortfolios.BacktestPortfolio.GenerateResult: the Sharpe, Sortino and Calmar fields, which are square roots or constants, are not modelled.
- `calculateVaR`, `calculateCVaR` and the other metrics of `internal/analytics/performance.go`: floating-point summaries without state.
- FillAccounting.Engine.UpdateFromOrder: a buy that exactly cancels a negative quantity divides by zero in the source and is excluded; unrealised profit and risk limits are not modelled.
- OrderLifecycle.Manager.PlaceOrder: an order must carry an id that is new to the manager, and `pending`, `completed` and `cancelled` are sets of ids, because they refer to the same objects as `orders`.
- ExecutionStrategies.TrailingStopStrategy.OnTick: the source ignores whether the engine accepts the sale; so does the model, which records what is submitted.
- RateLimits.RateLimiter.Wait: with a limit that is not positive the source never returns; the sleep is any time of at least 100 milliseconds.
- Goroutine scheduling below the locked sections, network adapters, servers, configuration, storage, logging and the AI components are outside this model.
