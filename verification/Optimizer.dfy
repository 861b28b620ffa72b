/** The optimizer: exhaustive grid search and the genetic loop, over a deterministic backtester. */
module GeneticOptimizer {
  import opened Options
  import opened RealSums
  import opened ParameterGrid
  import opened GeneDraws

  datatype Metrics = Metrics(
    totalReturn: real, sharpeRatio: real, maxDrawdown: real, winRate: real, profitFactor: real,
    totalTrades: int, avgTrade: real, sortinoRatio: real, calmarRatio: real)

  const NO_METRICS := Metrics(0.0, 0.0, 0.0, 0.0, 0.0, 0, 0.0, 0.0, 0.0)

  datatype Individual = Individual(genes: Genes, fitness: real, metrics: Metrics)

  datatype OptimizationResult = OptimizationResult(
    best: Individual, population: seq<Individual>, generationsRun: nat, converged: bool)

  datatype Outcome = Found(result: OptimizationResult) | NoSurvivor | Cancelled

  function CalculateFitness(objective: string, m: Metrics): real {
    if objective == "sharpe" then m.sharpeRatio
    else if objective == "profit" then m.totalReturn
    else if objective == "calmar" then m.calmarRatio
    else if objective == "sortino" then m.sortinoRatio
    else 0.4 * m.sharpeRatio + 0.3 * (1.0 - m.maxDrawdown) + 0.15 * m.totalReturn + 0.15 * m.profitFactor
  }

  /** What is copied from a backtest: the Sortino and Calmar ratios are not. */
  function Copied(m: Metrics): Metrics {
    m.(sortinoRatio := 0.0, calmarRatio := 0.0)
  }

  /** A backtest either fails or reports metrics. */
  type Backtester = Genes -> Option<Metrics>

  function Evaluated(ind: Individual, backtest: Backtester, objective: string): Individual {
    match backtest(ind.genes)
    case None => ind.(fitness := -1000.0)
    case Some(m) => ind.(metrics := Copied(m), fitness := CalculateFitness(objective, Copied(m)))
  }

  /** The fitness an evaluation gives to a set of genes. */
  ghost function FitnessOf(genes: Genes, backtest: Backtester, objective: string): real {
    match backtest(genes)
    case None => -1000.0
    case Some(m) => CalculateFitness(objective, Copied(m))
  }

  ghost predicate ReadsUncopied(objective: string) {
    objective == "calmar" || objective == "sortino"
  }

  /** The ratio that such an objective names, as the backtest reported it. */
  ghost function UncopiedRatio(objective: string, m: Metrics): real {
    if objective == "calmar" then m.calmarRatio else m.sortinoRatio
  }

  /** Under an objective that reads an uncopied ratio, every backtest that succeeds scores zero. */
  lemma UncopiedScoresZero(genes: Genes, backtest: Backtester, objective: string)
    requires ReadsUncopied(objective)
    ensures FitnessOf(genes, backtest, objective) == if backtest(genes).None? then -1000.0 else 0.0
  {
  }

  // ----- which backtest ranks higher -----

  /** At least as good in return, Sharpe ratio, profit factor and drawdown, and better in one of them. */
  ghost predicate Dominates(m: Metrics, n: Metrics) {
    && m.totalReturn >= n.totalReturn && m.sharpeRatio >= n.sharpeRatio
    && m.profitFactor >= n.profitFactor && m.maxDrawdown <= n.maxDrawdown
    && (m.totalReturn > n.totalReturn || m.sharpeRatio > n.sharpeRatio
        || m.profitFactor > n.profitFactor || m.maxDrawdown < n.maxDrawdown)
  }

  /** Trades the Sharpe ratio for the others at fixed rates: 4 of drawdown, 8 of return or 8 of profit
      factor for 3 of Sharpe ratio. */
  ghost function Traded(m: Metrics, drawdown: real, gain: real, factor: real): Metrics {
    m.(sharpeRatio := m.sharpeRatio + 3.0 * drawdown - 3.0 * gain - 3.0 * factor,
       maxDrawdown := m.maxDrawdown + 4.0 * drawdown,
       totalReturn := m.totalReturn + 8.0 * gain,
       profitFactor := m.profitFactor + 8.0 * factor)
  }

  ghost predicate DominatesTraded(m: Metrics, n: Metrics) {
    exists drawdown, gain, factor :: Dominates(Traded(m, drawdown, gain, factor), n)
  }

  /** What the objective asks for: a better Sharpe ratio, a better return; nothing that is measured, for an
      uncopied ratio; or else to be better all round after some trade. */
  ghost predicate IsBetter(objective: string, m: Metrics, n: Metrics) {
    if objective == "sharpe" then m.sharpeRatio > n.sharpeRatio
    else if objective == "profit" then m.totalReturn > n.totalReturn
    else if ReadsUncopied(objective) then false
    else DominatesTraded(m, n)
  }

  /** Metrics that are as bad as a failed backtest. */
  ghost function AsBadAsFailing(objective: string): Metrics {
    if objective == "sharpe" then NO_METRICS.(sharpeRatio := -1000.0)
    else if objective == "profit" then NO_METRICS.(totalReturn := -1000.0)
    else NO_METRICS.(sharpeRatio := -2500.75)
  }

  ghost predicate RanksHigher(objective: string, a: Option<Metrics>, b: Option<Metrics>) {
    match (a, b)
    case (Some(m), Some(n)) => IsBetter(objective, m, n)
    case (Some(m), None) => ReadsUncopied(objective) || IsBetter(objective, m, AsBadAsFailing(objective))
    case (None, Some(n)) => !ReadsUncopied(objective) && IsBetter(objective, AsBadAsFailing(objective), n)
    case (None, None) => false
  }

  ghost predicate IsComposite(objective: string) {
    objective != "sharpe" && objective != "profit" && !ReadsUncopied(objective)
  }

  /** Trades leave the composite score as it is. */
  lemma TradesKeepTheScore(objective: string, m: Metrics, drawdown: real, gain: real, factor: real)
    requires IsComposite(objective)
    ensures CalculateFitness(objective, Copied(Traded(m, drawdown, gain, factor)))
         == CalculateFitness(objective, Copied(m))
  {
  }

  lemma DominatingScoresHigher(objective: string, m: Metrics, n: Metrics)
    requires IsComposite(objective) && Dominates(m, n)
    ensures CalculateFitness(objective, Copied(m)) > CalculateFitness(objective, Copied(n))
  {
  }

  /** Of two composite scores the higher one can be traded until only the Sharpe ratio differs. */
  lemma CompositeIff(objective: string, m: Metrics, n: Metrics)
    requires IsComposite(objective)
    ensures CalculateFitness(objective, Copied(m)) > CalculateFitness(objective, Copied(n)) <==> DominatesTraded(m, n)
  {
    if DominatesTraded(m, n) {
      var drawdown, gain, factor :| Dominates(Traded(m, drawdown, gain, factor), n);
      TradesKeepTheScore(objective, m, drawdown, gain, factor);
      DominatingScoresHigher(objective, Traded(m, drawdown, gain, factor), n);
    }
    if CalculateFitness(objective, Copied(m)) > CalculateFitness(objective, Copied(n)) {
      var drawdown := (n.maxDrawdown - m.maxDrawdown) / 4.0;
      var gain := (n.totalReturn - m.totalReturn) / 8.0;
      var factor := (n.profitFactor - m.profitFactor) / 8.0;
      TradesKeepTheScore(objective, m, drawdown, gain, factor);
      assert Dominates(Traded(m, drawdown, gain, factor), n);
    }
  }

  lemma BetterIff(objective: string, m: Metrics, n: Metrics)
    ensures CalculateFitness(objective, Copied(m)) > CalculateFitness(objective, Copied(n))
       <==> IsBetter(objective, m, n)
  {
    if IsComposite(objective) {
      CompositeIff(objective, m, n);
    }
  }

  /** One fitness is greater than another if and only if the backtest ranks higher by the objective. */
  lemma FitterIff(a: Genes, b: Genes, backtest: Backtester, objective: string)
    ensures FitnessOf(a, backtest, objective) > FitnessOf(b, backtest, objective)
       <==> RanksHigher(objective, backtest(a), backtest(b))
  {
    var failing := AsBadAsFailing(objective);
    if backtest(a).Some? {
      BetterIff(objective, backtest(a).value, if backtest(b).Some? then backtest(b).value else failing);
    } else if backtest(b).Some? {
      BetterIff(objective, failing, backtest(b).value);
    }
  }

  /** Nothing ranks higher: what that says about the backtests themselves, if both succeed. */
  lemma UnbeatenMeans(objective: string, best: Metrics, m: Metrics)
    requires !IsBetter(objective, m, best)
    ensures objective == "sharpe" ==> m.sharpeRatio <= best.sharpeRatio
    ensures objective == "profit" ==> m.totalReturn <= best.totalReturn
    ensures IsComposite(objective) ==> !Dominates(m, best)
  {
    if IsComposite(objective) {
      assert !Dominates(Traded(m, 0.0, 0.0, 0.0), best);
      assert Traded(m, 0.0, 0.0, 0.0) == m;
    }
  }

  /** The metrics of the backtest, but for the two ratios that are not copied. */
  ghost predicate CarriesMetrics(ind: Individual, backtest: Backtester) {
    backtest(ind.genes).Some? ==>
      var m := backtest(ind.genes).value;
      && ind.metrics.sortinoRatio == ind.metrics.calmarRatio == 0.0
      && ind.metrics.(sortinoRatio := m.sortinoRatio, calmarRatio := m.calmarRatio) == m
  }

  // ----- genes and parameter spaces -----

  ghost predicate AllWellFormed(params: seq<Param>) {
    forall j :: 0 <= j < |params| ==> WellFormed(params[j])
  }

  /** Among the first `n` parameters there is one of this name that allows the value. */
  ghost predicate Allowed(params: seq<Param>, n: int, name: string, v: Value) {
    exists j :: 0 <= j < n <= |params| && params[j].name == name && Fits(params[j], v)
  }

  /** A gene for each parameter name, each allowed by a parameter of its name. */
  ghost predicate InSpace(genes: Genes, params: seq<Param>) {
    && (forall j :: 0 <= j < |params| ==> params[j].name in genes)
    && (forall name :: name in genes ==> Allowed(params, |params|, name, genes[name]))
  }

  /** A gene for each parameter, one that its draws can bring about. */
  ghost predicate BredGenes(genes: Genes, params: seq<Param>) {
    forall j :: 0 <= j < |params| ==> params[j].name in genes && IsBred(params[j], genes[params[j].name])
  }

  lemma WriteKeepsBred(genes: Genes, params: seq<Param>, j: nat, v: Value)
    requires BredGenes(genes, params) && DistinctNames(params) && j < |params| && IsBred(params[j], v)
    ensures BredGenes(genes[params[j].name := v], params)
  {
  }

  lemma WriteKeepsSpace(genes: Genes, params: seq<Param>, j: nat, v: Value)
    requires InSpace(genes, params) && j < |params| && Fits(params[j], v)
    ensures InSpace(genes[params[j].name := v], params)
  {
    var g := genes[params[j].name := v];
    forall name | name in g ensures Allowed(params, |params|, name, g[name]) {
      if name == params[j].name {
        assert params[j].name == name && Fits(params[j], g[name]);
      }
    }
  }

  method CreateRandomIndividual(params: seq<Param>) returns (ind: Individual)
    ensures AllWellFormed(params) ==> InSpace(ind.genes, params)
    ensures DistinctNames(params) ==> BredGenes(ind.genes, params)
    ensures ind.fitness == 0.0 && ind.metrics == NO_METRICS
  {
    var genes: Genes := map[];
    for i := 0 to |params|
      invariant forall j :: 0 <= j < i ==> params[j].name in genes
      invariant AllWellFormed(params) ==> forall name :: name in genes ==> Allowed(params, i, name, genes[name])
      invariant DistinctNames(params) ==> forall j :: 0 <= j < i ==> IsBred(params[j], genes[params[j].name])
    {
      var v := RandomGene(params[i]);
      genes := genes[params[i].name := v];
      assert AllWellFormed(params) ==> WellFormed(params[i]);
    }
    ind := Individual(genes, 0.0, NO_METRICS);
  }

  function CloneIndividual(original: Individual): Individual {
    Individual(original.genes, 0.0, NO_METRICS)
  }

  function Lookup(genes: Genes, name: string): Value {
    if name in genes then genes[name] else Nil
  }

  method Crossover(parent1: Individual, parent2: Individual, params: seq<Param>) returns (child: Individual)
    ensures InSpace(parent1.genes, params) && InSpace(parent2.genes, params) ==> InSpace(child.genes, params)
    ensures BredGenes(parent1.genes, params) && BredGenes(parent2.genes, params) ==> BredGenes(child.genes, params)
    ensures child.fitness == 0.0 && child.metrics == NO_METRICS
    ensures forall name :: name in child.genes ==>
      child.genes[name] == Lookup(parent1.genes, name) || child.genes[name] == Lookup(parent2.genes, name)
  {
    child := CloneIndividual(parent1);
    for i := 0 to |params|
      invariant forall name :: name in parent1.genes ==> name in child.genes
      invariant InSpace(parent1.genes, params) && InSpace(parent2.genes, params) ==> InSpace(child.genes, params)
      invariant BredGenes(parent1.genes, params) && BredGenes(parent2.genes, params) ==> BredGenes(child.genes, params)
      invariant child.fitness == 0.0 && child.metrics == NO_METRICS
      invariant forall name :: name in child.genes ==>
        child.genes[name] == Lookup(parent1.genes, name) || child.genes[name] == Lookup(parent2.genes, name)
    {
      var u := RandomFloat();
      if u < 0.5 {
        child := child.(genes := child.genes[params[i].name := Lookup(parent2.genes, params[i].name)]);
      }
    }
  }

  method Mutate(individual: Individual, params: seq<Param>, mutationRate: real) returns (child: Individual)
    ensures AllWellFormed(params) && InSpace(individual.genes, params) ==> InSpace(child.genes, params)
    ensures DistinctNames(params) && BredGenes(individual.genes, params) ==> BredGenes(child.genes, params)
    ensures child == individual.(genes := child.genes)
  {
    child := individual;
    for i := 0 to |params|
      invariant AllWellFormed(params) && InSpace(individual.genes, params) ==> InSpace(child.genes, params)
      invariant DistinctNames(params) && BredGenes(individual.genes, params) ==> BredGenes(child.genes, params)
      invariant child == individual.(genes := child.genes)
    {
      var u := RandomFloat();
      if u < mutationRate {
        var p := params[i];
        var v;
        if |p.values| > 0 {
          v := RandomValue(p);
        } else {
          v := MutatedNumber(p, Lookup(child.genes, p.name));
        }
        if AllWellFormed(params) && InSpace(individual.genes, params) {
          WriteKeepsSpace(child.genes, params, i, v);
        }
        if DistinctNames(params) && BredGenes(individual.genes, params) {
          WriteKeepsBred(child.genes, params, i, v);
        }
        child := child.(genes := child.genes[p.name := v]);
      }
    }
  }

  // ----- populations -----

  ghost predicate IsScored(pop: seq<Individual>, backtest: Backtester, objective: string) {
    forall i :: 0 <= i < |pop| ==> pop[i].fitness == FitnessOf(pop[i].genes, backtest, objective)
  }

  ghost predicate AllInSpace(pop: seq<Individual>, params: seq<Param>) {
    forall i :: 0 <= i < |pop| ==> InSpace(pop[i].genes, params)
  }

  ghost predicate AllBred(pop: seq<Individual>, params: seq<Param>) {
    forall i :: 0 <= i < |pop| ==> BredGenes(pop[i].genes, params)
  }

  /** Nothing has been evaluated yet. */
  ghost predicate IsUnscored(pop: seq<Individual>) {
    forall i :: 0 <= i < |pop| ==> pop[i].fitness == 0.0
  }

  /** Each fitness is the one of the genes, or still the initial zero. */
  ghost predicate IsPartlyScored(pop: seq<Individual>, backtest: Backtester, objective: string) {
    forall i :: 0 <= i < |pop| ==>
      pop[i].fitness == FitnessOf(pop[i].genes, backtest, objective) || pop[i].fitness == 0.0
  }

  /** What every population of a run keeps: its genes lie in their parameters' space, and are what the
      draws of these parameters can bring about. */
  ghost predicate Lawful(pop: seq<Individual>, params: seq<Param>) {
    && (AllWellFormed(params) ==> AllInSpace(pop, params))
    && (DistinctNames(params) ==> AllBred(pop, params))
  }

  /** No number of this parameter can leave its range. */
  ghost predicate IsTight(p: Param) {
    p.values == [] && p.min <= p.max && (p.step > 0.0 ==> EndsHold(p))
  }

  /** A bred gene of a tight parameter lies in its range. */
  lemma TightGenesStay(pop: seq<Individual>, params: seq<Param>, i: nat, j: nat)
    requires AllBred(pop, params) && i < |pop| && j < |params| && IsTight(params[j])
    ensures var v := pop[i].genes[params[j].name]; v.Number? && Inside(params[j], v.x)
  {
    var p := params[j];
    assert BredGenes(pop[i].genes, params) && IsBred(p, pop[i].genes[p.name]);
    if p.step > 0.0 {
      StaysInsideIff(p);
    } else {
      UnsteppedStaysInside(p);
    }
  }

  ghost predicate HasGene(pop: seq<Individual>, name: string, v: Value) {
    exists i :: 0 <= i < |pop| && name in pop[i].genes && pop[i].genes[name] == v
  }

  /** Every gene is the gene of that name of some member of the population. */
  ghost predicate Inherits(genes: Genes, pop: seq<Individual>) {
    forall name :: name in genes ==> HasGene(pop, name, genes[name])
  }

  ghost predicate IsTop(top: real, pop: seq<Individual>) {
    && (forall i :: 0 <= i < |pop| ==> pop[i].fitness <= top)
    && (exists i :: 0 <= i < |pop| && pop[i].fitness == top)
  }

  ghost predicate Descending(pop: seq<Individual>) {
    forall i, j :: 0 <= i < j < |pop| ==> pop[i].fitness >= pop[j].fitness
  }

  ghost function GenesOf(pop: seq<Individual>): seq<Genes> {
    seq(|pop|, i requires 0 <= i < |pop| => pop[i].genes)
  }

  lemma SameMembers(a: seq<Individual>, b: seq<Individual>)
    requires multiset(a) == multiset(b)
    ensures |a| == |b|
    ensures forall i :: 0 <= i < |a| ==> a[i] in b
    ensures forall i :: 0 <= i < |b| ==> b[i] in a
  {
    assert |multiset(a)| == |a| && |multiset(b)| == |b|;
    forall i | 0 <= i < |a| ensures a[i] in b {
      assert a[i] in multiset(a);
    }
    forall i | 0 <= i < |b| ensures b[i] in a {
      assert b[i] in multiset(b);
    }
  }

  /** Rearranging a population keeps what is said of all its members. */
  lemma Rearranged(a: seq<Individual>, b: seq<Individual>, params: seq<Param>, backtest: Backtester, objective: string)
    requires multiset(a) == multiset(b)
    ensures |a| == |b|
    ensures IsScored(a, backtest, objective) ==> IsScored(b, backtest, objective)
    ensures IsPartlyScored(a, backtest, objective) ==> IsPartlyScored(b, backtest, objective)
    ensures Lawful(a, params) ==> Lawful(b, params)
    ensures forall top :: IsTop(top, a) ==> IsTop(top, b)
  {
    SameMembers(a, b);
    forall top | IsTop(top, a) ensures IsTop(top, b) {
      var i :| 0 <= i < |a| && a[i].fitness == top;
      assert a[i] in b;
    }
  }

  method Inserted(pop: seq<Individual>, ind: Individual) returns (r: seq<Individual>)
    requires Descending(pop)
    ensures multiset(r) == multiset(pop) + multiset{ind} && Descending(r)
  {
    var k := 0;
    while k < |pop| && pop[k].fitness >= ind.fitness
      invariant k <= |pop| && forall i :: 0 <= i < k ==> pop[i].fitness >= ind.fitness
    {
      k := k + 1;
    }
    r := pop[..k] + [ind] + pop[k..];
    MultisetInsert(pop, k, ind);
  }

  /** The library's sort: some rearrangement in descending order. */
  method Sorted(pop: seq<Individual>) returns (r: seq<Individual>)
    ensures multiset(r) == multiset(pop) && Descending(r)
  {
    r := [];
    for i := 0 to |pop|
      invariant multiset(r) == multiset(pop[..i]) && Descending(r)
    {
      assert pop[..i + 1] == pop[..i] + [pop[i]];
      r := Inserted(r, pop[i]);
    }
    assert pop[..|pop|] == pop;
  }

  /** Every recorded best, each no worse than the one before. */
  ghost predicate NeverFalls(bests: seq<real>) {
    forall i, j :: 0 <= i <= j < |bests| ==> bests[i] <= bests[j]
  }

  /** Generation `k` beats the starting bound and everything before it. */
  ghost predicate Improves(bests: seq<real>, lowest: real, k: nat)
    requires k < |bests|
  {
    bests[k] > lowest && forall j :: 0 <= j < k ==> bests[k] > bests[j]
  }

  /** The last 21 generations up to `g` brought no improvement. */
  ghost predicate Stalled(bests: seq<real>, lowest: real, g: int) {
    20 <= g < |bests| && forall k :: g - 20 <= k <= g ==> !Improves(bests, lowest, k)
  }

  ghost predicate NoneStalled(bests: seq<real>, lowest: real, n: nat) {
    forall g :: 0 <= g < n ==> !Stalled(bests, lowest, g)
  }

  datatype Config = Config(
    populationSize: nat, generations: nat, mutationRate: real, crossoverRate: real, eliteCount: nat,
    objective: string)

  lemma SameGenesLawful(a: seq<Individual>, b: seq<Individual>, params: seq<Param>)
    requires GenesOf(a) == GenesOf(b)
    ensures Lawful(a, params) ==> Lawful(b, params)
  {
    assert |GenesOf(a)| == |a| && |GenesOf(b)| == |b|;
    forall i | 0 <= i < |b| ensures b[i].genes == a[i].genes {
      assert GenesOf(a)[i] == GenesOf(b)[i];
    }
  }

  lemma {:induction false} TopExists(pop: seq<Individual>) returns (top: real)
    requires pop != []
    ensures IsTop(top, pop)
  {
    top := pop[0].fitness;
    if |pop| > 1 {
      var rest := TopExists(pop[1..]);
      var i :| 0 <= i < |pop[1..]| && pop[1..][i].fitness == rest;
      assert pop[i + 1].fitness == rest;
      top := if rest > top then rest else top;
      forall k | 0 <= k < |pop| ensures pop[k].fitness <= top {
        if k > 0 { assert pop[k] == pop[1..][k - 1]; }
      }
    }
  }

  lemma TopComesFirst(top: real, pop: seq<Individual>)
    requires IsTop(top, pop) && Descending(pop)
    ensures pop != [] && pop[0].fitness == top
  {
  }

  /** `best` is the greatest of `lowest` and `bests`, and `stale` counts the generations since. */
  ghost predicate Counts(bests: seq<real>, lowest: real, best: real, stale: nat) {
    && lowest <= best && (forall k :: 0 <= k < |bests| ==> bests[k] <= best)
    && (best == lowest || best in bests)
    && stale <= |bests| && stale <= 20
    && (forall k :: |bests| - stale <= k < |bests| ==> !Improves(bests, lowest, k))
    && (stale < |bests| ==> Improves(bests, lowest, |bests| - stale - 1))
    && NoneStalled(bests, lowest, |bests|)
  }

  lemma ImprovesEarlier(bests: seq<real>, lowest: real, top: real, k: nat)
    requires k < |bests|
    ensures Improves(bests + [top], lowest, k) <==> Improves(bests, lowest, k)
  {
    var longer := bests + [top];
    assert forall j :: 0 <= j <= k ==> longer[j] == bests[j];
  }

  lemma StalledEarlier(bests: seq<real>, lowest: real, top: real)
    ensures forall g :: 0 <= g < |bests| ==> (Stalled(bests + [top], lowest, g) <==> Stalled(bests, lowest, g))
  {
    forall k: nat | k < |bests| ensures Improves(bests + [top], lowest, k) <==> Improves(bests, lowest, k) {
      ImprovesEarlier(bests, lowest, top, k);
    }
  }

  lemma ImprovesNow(bests: seq<real>, lowest: real, best: real, top: real)
    requires lowest <= best && (forall k :: 0 <= k < |bests| ==> bests[k] <= best)
    requires best == lowest || best in bests
    ensures Improves(bests + [top], lowest, |bests|) <==> top > best
  {
    var longer := bests + [top];
    assert forall j :: 0 <= j < |bests| ==> longer[j] == bests[j];
    assert best in bests ==> exists j :: 0 <= j < |bests| && longer[j] == best;
  }

  lemma CountsStep(bests: seq<real>, lowest: real, best: real, stale: nat, top: real)
    requires Counts(bests, lowest, best, stale)
    ensures if top > best then Counts(bests + [top], lowest, top, 0)
            else if stale + 1 <= 20 then Counts(bests + [top], lowest, best, stale + 1)
            else Stalled(bests + [top], lowest, |bests|)
    ensures NoneStalled(bests + [top], lowest, |bests|)
  {
    forall k: nat | k < |bests| ensures Improves(bests + [top], lowest, k) <==> Improves(bests, lowest, k) {
      ImprovesEarlier(bests, lowest, top, k);
    }
    StalledEarlier(bests, lowest, top);
    ImprovesNow(bests, lowest, best, top);
  }

  class Optimizer {
    const config: Config
    const backtest: Backtester
    /** The most negative float, below every fitness a run can improve on. */
    const lowest: real
    var population: seq<Individual>
    /** The genes of every generation evaluated in this run. */
    ghost var evaluated: seq<seq<Genes>>

    constructor (config: Config, backtest: Backtester, lowest: real)
      ensures this.config == config && this.backtest == backtest && this.lowest == lowest
      ensures population == [] && evaluated == []
    {
      this.config, this.backtest, this.lowest := config, backtest, lowest;
      population, evaluated := [], [];
    }

    ghost function Fitness(genes: Genes): real {
      FitnessOf(genes, backtest, config.objective)
    }

    /** The fitness orders the population as the objective ranks its backtests. */
    ghost predicate OrdersByObjective(pop: seq<Individual>) {
      forall i, j :: 0 <= i < |pop| && 0 <= j < |pop| ==>
        (pop[i].fitness > pop[j].fitness
         <==> RanksHigher(config.objective, backtest(pop[i].genes), backtest(pop[j].genes)))
    }

    lemma ScoredIsOrdered(pop: seq<Individual>)
      requires IsScored(pop, backtest, config.objective)
      ensures OrdersByObjective(pop)
    {
      forall i, j | 0 <= i < |pop| && 0 <= j < |pop|
        ensures pop[i].fitness > pop[j].fitness
           <==> RanksHigher(config.objective, backtest(pop[i].genes), backtest(pop[j].genes))
      {
        FitterIff(pop[i].genes, pop[j].genes, backtest, config.objective);
      }
    }

    /** The workers evaluate each individual on its own. Once the context is cancelled, a worker may
        leave its individual as it is. */
    method EvaluatePopulation(cancelled: bool)
      modifies this
      ensures GenesOf(population) == GenesOf(old(population)) && |population| == |old(population)|
      ensures forall i :: 0 <= i < |population| ==>
        || population[i] == Evaluated(old(population)[i], backtest, config.objective)
        || (cancelled && population[i] == old(population)[i])
      ensures !cancelled ==> IsScored(population, backtest, config.objective)
      ensures !cancelled ==>
        OrdersByObjective(population) && forall i :: 0 <= i < |population| ==> CarriesMetrics(population[i], backtest)
      ensures evaluated == if cancelled then old(evaluated) else old(evaluated) + [GenesOf(population)]
    {
      ghost var was := population;
      for i := 0 to |population|
        invariant |population| == |was| && evaluated == old(evaluated)
        invariant GenesOf(population) == GenesOf(was)
        invariant forall k :: 0 <= k < i ==>
          || population[k] == Evaluated(was[k], backtest, config.objective)
          || (cancelled && population[k] == was[k])
        invariant forall k :: i <= k < |was| ==> population[k] == was[k]
      {
        var skips := *;
        if !cancelled || !skips {
          ghost var before := population;
          population := population[i := Evaluated(population[i], backtest, config.objective)];
          assert forall k :: 0 <= k < |was| ==> population[k].genes == before[k].genes == GenesOf(before)[k];
        }
      }
      if !cancelled {
        evaluated := evaluated + [GenesOf(population)];
        ScoredIsOrdered(population);
      }
    }

    method SortPopulation()
      modifies this`population
      ensures multiset(population) == multiset(old(population)) && Descending(population)
    {
      population := Sorted(population);
    }

    /** The fittest of five individuals drawn from the population. */
    method TournamentSelect() returns (best: Individual, ghost drawn: seq<Individual>)
      requires population != []
      ensures best in population
      ensures |drawn| == 5 && best in drawn
      ensures forall d :: d in drawn ==> d in population && d.fitness <= best.fitness
    {
      var k := RandomIndex(|population|);
      best := population[k];
      drawn := [best];
      for i := 1 to 5
        invariant |drawn| == i && best in drawn
        invariant forall d :: d in drawn ==> d in population && d.fitness <= best.fitness
      {
        k := RandomIndex(|population|);
        drawn := drawn + [population[k]];
        if population[k].fitness > best.fitness {
          best := population[k];
        }
      }
    }

    /** What a member of the next population has from the present one. */
    ghost predicate IsOffspring(ind: Individual, params: seq<Param>) reads this {
      && ind.fitness == 0.0 && ind.metrics == NO_METRICS
      && (AllWellFormed(params) && AllInSpace(population, params) ==> InSpace(ind.genes, params))
      && (DistinctNames(params) && AllBred(population, params) ==> BredGenes(ind.genes, params))
      && (config.mutationRate <= 0.0 && AllInSpace(population, params) ==> Inherits(ind.genes, population))
    }

    lemma CloneIsOffspring(i: nat, params: seq<Param>)
      requires i < |population|
      ensures IsOffspring(CloneIndividual(population[i]), params)
    {
      var genes := population[i].genes;
      forall name | name in genes ensures HasGene(population, name, genes[name]) {
      }
    }

    method Child(params: seq<Param>) returns (child: Individual)
      requires population != []
      ensures IsOffspring(child, params)
    {
      var u := RandomFloat();
      if u < config.crossoverRate {
        var parent1, _ := TournamentSelect();
        var parent2, _ := TournamentSelect();
        child := Crossover(parent1, parent2, params);
      } else {
        var parent, _ := TournamentSelect();
        child := CloneIndividual(parent);
      }
      u := RandomFloat();
      if u < config.mutationRate {
        child := Mutate(child, params, config.mutationRate);
      }
    }

    lemma OffspringAreLawful(next: seq<Individual>, params: seq<Param>)
      requires forall i :: 0 <= i < |next| ==> IsOffspring(next[i], params)
      ensures IsUnscored(next) && (Lawful(population, params) ==> Lawful(next, params))
    {
    }

    /** The next population: the elites' clones, then children up to the size. */
    method NextGeneration(params: seq<Param>) returns (next: seq<Individual>)
      requires |population| == config.populationSize
      requires 1 <= config.eliteCount <= config.populationSize
      ensures |next| == config.populationSize
      ensures forall i :: 0 <= i < config.eliteCount ==> next[i] == CloneIndividual(population[i])
      ensures forall i :: 0 <= i < |next| ==> IsOffspring(next[i], params)
      ensures IsUnscored(next) && (Lawful(population, params) ==> Lawful(next, params))
    {
      next := [];
      for i := 0 to config.eliteCount
        invariant |next| == i && forall k :: 0 <= k < i ==> next[k] == CloneIndividual(population[k])
        invariant forall k :: 0 <= k < i ==> IsOffspring(next[k], params)
      {
        CloneIsOffspring(i, params);
        next := next + [CloneIndividual(population[i])];
      }
      while |next| < config.populationSize
        invariant config.eliteCount <= |next| <= config.populationSize
        invariant forall k :: 0 <= k < config.eliteCount ==> next[k] == CloneIndividual(population[k])
        invariant forall k :: 0 <= k < |next| ==> IsOffspring(next[k], params)
        decreases config.populationSize - |next|
      {
        var child := Child(params);
        next := next + [child];
      }
      OffspringAreLawful(next, params);
    }

    method BuildResult(generations: nat, converged: bool) returns (result: OptimizationResult)
      requires population != []
      modifies this`population
      ensures multiset(population) == multiset(old(population)) && Descending(population)
      ensures result == OptimizationResult(population[0], population, generations, converged)
    {
      SortPopulation();
      assert |multiset(population)| == |population|;
      result := OptimizationResult(population[0], population, generations, converged);
    }

    ghost predicate IsBest(best: real, generation: seq<Genes>) {
      && (forall k :: 0 <= k < |generation| ==> Fitness(generation[k]) <= best)
      && (exists k :: 0 <= k < |generation| && Fitness(generation[k]) == best)
    }

    /** Each entry of `bests` is the best fitness of one evaluated generation; none is below an
        earlier one; every generation has the same size. */
    ghost predicate IsHistory(bests: seq<real>, generations: seq<seq<Genes>>) {
      && |bests| == |generations| && NeverFalls(bests)
      && forall g :: 0 <= g < |generations| ==>
           |generations[g]| == config.populationSize && IsBest(bests[g], generations[g])
    }

    /** The state between generations: `bests` has the best fitness of every generation but the
        present one, whose best is `top`. */
    ghost predicate Evolving(params: seq<Param>, bests: seq<real>, top: real) reads this {
      && |population| == config.populationSize && IsScored(population, backtest, config.objective)
      && IsTop(top, population)
      && IsHistory(bests + [top], evaluated)
      && Lawful(population, params)
    }

    lemma TopIsBest(top: real, pop: seq<Individual>)
      requires IsTop(top, pop) && IsScored(pop, backtest, config.objective)
      ensures IsBest(top, GenesOf(pop))
    {
      var i :| 0 <= i < |pop| && pop[i].fitness == top;
      assert Fitness(GenesOf(pop)[i]) == top;
    }

    lemma HistoryGrows(bests: seq<real>, generations: seq<seq<Genes>>, top: real, generation: seq<Genes>)
      requires IsHistory(bests, generations) && IsBest(top, generation) && |generation| == config.populationSize
      requires bests != [] ==> bests[|bests| - 1] <= top
      ensures IsHistory(bests + [top], generations + [generation])
    {
    }

    ghost predicate IsUnbeaten(best: real, generations: seq<seq<Genes>>) {
      forall g, k :: 0 <= g < |generations| && 0 <= k < |generations[g]| ==> Fitness(generations[g][k]) <= best
    }

    lemma LastIsUnbeaten(bests: seq<real>, generations: seq<seq<Genes>>)
      requires IsHistory(bests, generations) && bests != []
      ensures IsUnbeaten(bests[|bests| - 1], generations)
    {
      forall g, k | 0 <= g < |generations| && 0 <= k < |generations[g]|
        ensures Fitness(generations[g][k]) <= bests[|bests| - 1]
      {
        assert IsBest(bests[g], generations[g]);
      }
    }

    /** No genes of these generations rank higher. */
    ghost predicate IsTopRanked(best: Genes, generations: seq<seq<Genes>>) {
      forall g, k :: 0 <= g < |generations| && 0 <= k < |generations[g]| ==>
        !RanksHigher(config.objective, backtest(generations[g][k]), backtest(best))
    }

    lemma UnbeatenIsTopRanked(best: Genes, generations: seq<seq<Genes>>)
      requires IsUnbeaten(Fitness(best), generations)
      ensures IsTopRanked(best, generations)
    {
      forall g, k | 0 <= g < |generations| && 0 <= k < |generations[g]|
        ensures !RanksHigher(config.objective, backtest(generations[g][k]), backtest(best))
      {
        FitterIff(generations[g][k], best, backtest, config.objective);
      }
    }

    method InitialPopulation(params: seq<Param>)
      modifies this
      ensures |population| == config.populationSize && evaluated == []
      ensures Lawful(population, params) && IsUnscored(population)
    {
      population, evaluated := [], [];
      for i := 0 to config.populationSize
        invariant |population| == i && evaluated == []
        invariant Lawful(population, params) && IsUnscored(population)
      {
        var individual := CreateRandomIndividual(params);
        population := population + [individual];
      }
    }

    /** Some member has genes of this fitness, evaluated or not. */
    ghost predicate Elite(fitness: real) reads this {
      exists i :: 0 <= i < |population| && Fitness(population[i].genes) == fitness
    }

    /** A population that is still to be evaluated. It carries the best genes of the generation before. */
    ghost predicate Awaits(params: seq<Param>, bests: seq<real>) reads this {
      && |population| == config.populationSize > 0 && Lawful(population, params) && IsUnscored(population)
      && IsHistory(bests, evaluated)
      && (bests != [] ==> Elite(bests[|bests| - 1]))
    }

    lemma EliteCarries(before: seq<Individual>, after: seq<Individual>, fitness: real, top: real)
      requires exists i :: 0 <= i < |before| && Fitness(before[i].genes) == fitness
      requires GenesOf(after) == GenesOf(before) && IsScored(after, backtest, config.objective) && IsTop(top, after)
      ensures fitness <= top
    {
      var i :| 0 <= i < |before| && Fitness(before[i].genes) == fitness;
      assert |GenesOf(before)| == |before| && |GenesOf(after)| == |after|;
      assert GenesOf(before)[i] == GenesOf(after)[i];
      assert after[i].fitness == fitness;
    }

    /** The present population, evaluated in full, becomes the next entry of the history. */
    method EvaluateAll(params: seq<Param>, ghost bests: seq<real>) returns (ghost top: real)
      requires Awaits(params, bests)
      modifies this
      ensures Evolving(params, bests, top)
    {
      ghost var was := population;
      ghost var earlier := evaluated;
      EvaluatePopulation(false);
      SameGenesLawful(was, population, params);
      top := TopExists(population);
      TopIsBest(top, population);
      if bests != [] {
        EliteCarries(was, population, bests[|bests| - 1], top);
      }
      HistoryGrows(bests, earlier, top, GenesOf(population));
    }

    /** Sorts the generation and counts on: `stale` is above 20 exactly when the run is to stop. */
    method RankGeneration(params: seq<Param>, bestFitness: real, stale: nat, ghost bests: seq<real>, ghost top: real)
      returns (bestFitness': real, stale': nat)
      requires Evolving(params, bests, top) && config.populationSize > 0
      requires Counts(bests, lowest, bestFitness, stale)
      modifies this`population
      ensures Evolving(params, bests, top) && population != [] && population[0].fitness == top
      ensures if stale' > 20 then Stalled(bests + [top], lowest, |bests|)
              else Counts(bests + [top], lowest, bestFitness', stale')
      ensures NoneStalled(bests + [top], lowest, |bests|)
    {
      ghost var unsorted := population;
      SortPopulation();
      Rearranged(unsorted, population, params, backtest, config.objective);
      TopComesFirst(top, population);
      CountsStep(bests, lowest, bestFitness, stale, top);
      if population[0].fitness > bestFitness {
        return population[0].fitness, 0;
      }
      return bestFitness, stale + 1;
    }

    /** One generation on, not yet evaluated: the first elite carries the best genes over. */
    method Advance(params: seq<Param>, ghost bests: seq<real>, ghost top: real)
      requires Evolving(params, bests, top) && 1 <= config.eliteCount <= config.populationSize
      requires population[0].fitness == top
      modifies this`population
      ensures Awaits(params, bests + [top])
    {
      ghost var elite := population[0];
      population := NextGeneration(params);
      assert population[0].genes == elite.genes;
    }

    ghost predicate LastsUntil(result: OptimizationResult, bests: seq<real>) reads this {
      && |bests| == result.generationsRun + 1 && result.best.fitness == bests[result.generationsRun]
      && IsScored(population, backtest, config.objective)
      && (!result.converged ==> result.generationsRun == config.generations)
    }

    ghost predicate BreaksOff(result: OptimizationResult, bests: seq<real>) reads this {
      && |bests| == result.generationsRun && !result.converged
      && IsPartlyScored(population, backtest, config.objective)
    }

    ghost predicate RanksAll(result: OptimizationResult, params: seq<Param>) reads this {
      && |population| == config.populationSize > 0 && Descending(population) && Lawful(population, params)
      && result.population == population && result.best == population[0]
      && (IsScored(population, backtest, config.objective) ==>
            IsUnbeaten(result.best.fitness, evaluated) && IsTopRanked(result.best.genes, evaluated))
    }

    /** What a run leaves behind. `bests` holds the best fitness of every generation that was evaluated
        in full; the returned best is unbeaten among all of them, unless the last population was not
        evaluated in full because the run was cancelled. */
    ghost predicate Reports(result: OptimizationResult, bests: seq<real>, cancelled: bool, params: seq<Param>)
      reads this
    {
      && RanksAll(result, params) && IsHistory(bests, evaluated)
      && if cancelled then BreaksOff(result, bests) else LastsUntil(result, bests)
    }

    /** A run stops early at exactly the first generation that ends 21 without improvement. */
    ghost predicate StopsInTime(result: OptimizationResult, bests: seq<real>) {
      && (result.converged ==> Stalled(bests, lowest, result.generationsRun))
      && NoneStalled(bests, lowest, result.generationsRun)
    }

    ghost predicate Ended(result: OptimizationResult, bests: seq<real>, cancelled: bool, params: seq<Param>)
      reads this
    {
      Reports(result, bests, cancelled, params) && StopsInTime(result, bests)
    }

    lemma PartlyEvaluated(before: seq<Individual>, after: seq<Individual>)
      requires IsUnscored(before) && |after| == |before|
      requires forall i :: 0 <= i < |after| ==>
        after[i] == Evaluated(before[i], backtest, config.objective) || after[i] == before[i]
      ensures IsPartlyScored(after, backtest, config.objective)
    {
    }

    /** A run that is cancelled by the evaluation of generation `generations`. */
    method Abandon(generations: nat, params: seq<Param>, ghost bests: seq<real>) returns (result: OptimizationResult)
      requires Awaits(params, bests) && |bests| == generations && NoneStalled(bests, lowest, generations)
      modifies this
      ensures Ended(result, bests, true, params) && result.generationsRun == generations
    {
      ghost var was := population;
      EvaluatePopulation(true);
      ghost var unsorted := population;
      SameGenesLawful(was, unsorted, params);
      PartlyEvaluated(was, unsorted);
      result := BuildResult(generations, false);
      Rearranged(unsorted, population, params, backtest, config.objective);
      if IsScored(population, backtest, config.objective) && bests != [] {
        Rearranged(population, unsorted, params, backtest, config.objective);
        var top := TopExists(unsorted);
        TopComesFirst(top, population);
        EliteCarries(was, unsorted, bests[|bests| - 1], top);
        LastIsUnbeaten(bests, evaluated);
        UnbeatenIsTopRanked(result.best.genes, evaluated);
      }
    }

    method Finish(generations: nat, converged: bool, params: seq<Param>, ghost bests: seq<real>, ghost top: real)
      returns (result: OptimizationResult)
      requires Evolving(params, bests, top) && population != [] && |bests| == generations
      requires if converged then Stalled(bests + [top], lowest, generations) else generations == config.generations
      requires NoneStalled(bests + [top], lowest, generations)
      modifies this`population
      ensures Ended(result, bests + [top], false, params)
    {
      ghost var unsorted := population;
      result := BuildResult(generations, converged);
      Rearranged(unsorted, population, params, backtest, config.objective);
      TopComesFirst(top, population);
      LastIsUnbeaten(bests + [top], evaluated);
      UnbeatenIsTopRanked(result.best.genes, evaluated);
    }

    /** The first population, and its evaluation. */
    method Begin(params: seq<Param>) returns (ghost top: real)
      requires config.populationSize > 0
      modifies this
      ensures Evolving(params, [], top)
    {
      InitialPopulation(params);
      top := EvaluateAll(params, []);
    }

    /** The next population, and its evaluation. */
    method Continue(params: seq<Param>, ghost bests: seq<real>, ghost top: real) returns (ghost next: real)
      requires Evolving(params, bests, top) && 1 <= config.eliteCount <= config.populationSize
      requires population[0].fitness == top
      modifies this
      ensures Evolving(params, bests + [top], next)
    {
      Advance(params, bests, top);
      next := EvaluateAll(params, bests + [top]);
    }

    /** A run that is cancelled by the evaluation of its first population, or of the next one. */
    method Cancel(generations: nat, params: seq<Param>, ghost bests: seq<real>, ghost top: real)
      returns (result: OptimizationResult, ghost bests': seq<real>)
      requires 1 <= config.eliteCount <= config.populationSize
      requires generations > 0 ==>
        && Evolving(params, bests, top) && population[0].fitness == top
        && |bests| + 1 == generations && NoneStalled(bests + [top], lowest, generations)
      modifies this
      ensures Ended(result, bests', true, params) && result.generationsRun == generations
    {
      if generations == 0 {
        InitialPopulation(params);
        bests' := [];
      } else {
        Advance(params, bests, top);
        bests' := bests + [top];
      }
      result := Abandon(generations, params, bests');
    }

    /** One run. The context may be done by the evaluation of generation `cancelAt`: that evaluation may
        then be partial, and the run ends with what there is. */
    method Optimize(params: seq<Param>, cancelAt: Option<nat>)
      returns (result: OptimizationResult, ghost bests: seq<real>, ghost cancelled: bool)
      requires 1 <= config.eliteCount <= config.populationSize
      modifies this
      ensures Ended(result, bests, cancelled, params)
      ensures cancelled ==> cancelAt == Some(result.generationsRun)
    {
      bests, cancelled := [], false;
      if cancelAt == Some(0) {
        result, bests := Cancel(0, params, bests, 0.0);
        cancelled := true;
        return;
      }
      ghost var top := Begin(params);
      var bestFitness := lowest;
      var generationsWithoutImprovement := 0;
      for gen := 0 to config.generations
        invariant Evolving(params, bests, top) && |bests| == gen && !cancelled
        invariant Counts(bests, lowest, bestFitness, generationsWithoutImprovement)
      {
        bestFitness, generationsWithoutImprovement :=
          RankGeneration(params, bestFitness, generationsWithoutImprovement, bests, top);
        if generationsWithoutImprovement > 20 {
          result := Finish(gen, true, params, bests, top);
          bests := bests + [top];
          return;
        }
        if cancelAt == Some(gen + 1) {
          result, bests := Cancel(gen + 1, params, bests, top);
          cancelled := true;
          return;
        }
        ghost var next := Continue(params, bests, top);
        bests, top := bests + [top], next;
      }
      StalledEarlier(bests, lowest, top);
      result := Finish(config.generations, false, params, bests, top);
      bests := bests + [top];
    }

    function Scored(genes: Genes): Individual {
      Evaluated(Individual(genes, 0.0, NO_METRICS), backtest, config.objective)
    }

    /** The individuals of the combinations whose backtest succeeds, in order. */
    ghost function Survivors(combos: seq<Genes>): seq<Individual> {
      if combos == [] then []
      else
        var n := |combos| - 1;
        if backtest(combos[n]).None? then Survivors(combos[..n])
        else Survivors(combos[..n]) + [Scored(combos[n])]
    }

    lemma {:induction false} SurvivorsOf(combos: seq<Genes>)
      ensures forall m :: m in combos && backtest(m).Some? ==> Scored(m) in Survivors(combos)
      ensures forall ind :: ind in Survivors(combos) ==>
        ind.genes in combos && backtest(ind.genes).Some? && ind.fitness == Fitness(ind.genes)
    {
      if combos != [] {
        SurvivorsOf(combos[..|combos| - 1]);
      }
    }

    /** What a grid search can leave behind: its sort may bring equals into any order. */
    ghost predicate IsSearchResult(pop: seq<Individual>, combos: seq<Genes>) {
      multiset(pop) == multiset(Survivors(combos)) && Descending(pop)
    }

    /** The genes survive, and no combination that survives is better by the objective. */
    ghost predicate IsBestOf(best: Genes, combos: seq<Genes>) {
      && best in combos && backtest(best).Some?
      && forall m :: m in combos && backtest(m).Some? ==>
           !IsBetter(config.objective, backtest(m).value, backtest(best).value)
    }

    lemma SearchFindsBest(pop: seq<Individual>, combos: seq<Genes>)
      requires IsSearchResult(pop, combos) && pop != []
      ensures IsBestOf(pop[0].genes, combos)
    {
      SurvivorsOf(combos);
      SameMembers(pop, Survivors(combos));
      assert pop[0] in Survivors(combos);
      forall m | m in combos && backtest(m).Some?
        ensures !IsBetter(config.objective, backtest(m).value, backtest(pop[0].genes).value)
      {
        assert Scored(m) in Survivors(combos) && Scored(m) in pop;
        FitterIff(m, pop[0].genes, backtest, config.objective);
      }
    }

    /** An exhaustive search. It is given up, with the population as it was, if the context is done
        before the combination `cancelAt`. Otherwise there is no result (the source indexes an empty
        slice) exactly when no combination survives its backtest. */
    method GridSearch(params: seq<Param>, cancelAt: Option<nat>) returns (outcome: Outcome, ghost combos: seq<Genes>)
      requires Ends(params)
      modifies this`population
      ensures combos == if params == [] then [] else Below(params, [])
      ensures outcome == Cancelled <==> cancelAt.Some? && cancelAt.value < |combos|
      ensures outcome == Cancelled ==> population == old(population)
      ensures outcome != Cancelled ==>
        && IsSearchResult(population, combos)
        && outcome == if Survivors(combos) == [] then NoSurvivor
                      else Found(OptimizationResult(population[0], population, |combos|, false))
      ensures outcome.Found? ==> IsBestOf(outcome.result.best.genes, combos)
    {
      var combinations := GenerateAllCombinations(params);
      combos := combinations;
      var results: seq<Individual> := [];
      for i := 0 to |combinations|
        invariant results == Survivors(combinations[..i]) && population == old(population)
        invariant cancelAt.Some? ==> i <= cancelAt.value
      {
        if cancelAt == Some(i) {
          return Cancelled, combos;
        }
        assert combinations[..i + 1][..i] == combinations[..i];
        if backtest(combinations[i]).Some? {
          results := results + [Scored(combinations[i])];
        }
      }
      assert combinations[..|combinations|] == combinations;
      population := Sorted(results);
      assert |multiset(population)| == |population| && |multiset(results)| == |results|;
      if |population| == 0 {
        return NoSurvivor, combos;
      }
      var r := BuildResult(|combinations|, false);
      outcome := Found(r);
      SearchFindsBest(population, combos);
    }

    /** With distinct names and positive steps, the grid's best is at least as fit as every point
        of the Cartesian product that survives, and is itself such a point. */
    lemma GridBestIsBest(params: seq<Param>, pop: seq<Individual>, m: Genes)
      requires AllStepped(params) && DistinctNames(params) && params != []
      requires multiset(pop) == multiset(Survivors(Below(params, []))) && Descending(pop)
      requires IsGridPoint(params, m) && backtest(m).Some?
      ensures pop != [] && Fitness(m) <= pop[0].fitness
      ensures IsGridPoint(params, pop[0].genes) && backtest(pop[0].genes).Some?
      ensures pop[0].fitness == Fitness(pop[0].genes)
      ensures !IsBetter(config.objective, backtest(m).value, backtest(pop[0].genes).value)
    {
      var combos := Below(params, []);
      GridPointIff(params, m);
      SurvivorsOf(combos);
      SameMembers(pop, Survivors(combos));
      assert Scored(m) in Survivors(combos) && Scored(m) in pop;
      assert pop[0] in Survivors(combos);
      GridPointIff(params, pop[0].genes);
      SearchFindsBest(pop, combos);
    }

    ghost function RatioOf(genes: Genes): real
      requires backtest(genes).Some?
    {
      UncopiedRatio(config.objective, backtest(genes).value)
    }

    /** No combination that survives has a better ratio than these genes. */
    ghost predicate HasBestRatio(genes: Genes, combos: seq<Genes>) {
      && backtest(genes).Some?
      && forall m :: m in combos && backtest(m).Some? ==> RatioOf(m) <= RatioOf(genes)
    }

    ghost predicate RatiosTie(combos: seq<Genes>) {
      forall m, m' :: m in combos && m' in combos && backtest(m).Some? && backtest(m').Some? ==>
        RatioOf(m) == RatioOf(m')
    }

    /** Whatever the sort does with equals, the search returns the best ratio. */
    ghost predicate FindsBestRatio(combos: seq<Genes>) {
      forall pop: seq<Individual> :: IsSearchResult(pop, combos) ==> pop != [] && HasBestRatio(pop[0].genes, combos)
    }

    /** Any survivor can come out first under an objective that reads an uncopied ratio. */
    lemma AnySurvivorCanWin(combos: seq<Genes>, m: Genes) returns (pop: seq<Individual>)
      requires ReadsUncopied(config.objective) && m in combos && backtest(m).Some?
      ensures IsSearchResult(pop, combos) && pop != [] && pop[0].genes == m
    {
      SurvivorsOf(combos);
      var s := Survivors(combos);
      var k :| 0 <= k < |s| && s[k] == Scored(m);
      pop := [s[k]] + s[..k] + s[k + 1..];
      assert s == s[..k] + [s[k]] + s[k + 1..];
      SameMembers(pop, s);
      forall i | 0 <= i < |pop| ensures pop[i].fitness == 0.0 {
        assert pop[i] in s;
        UncopiedScoresZero(pop[i].genes, backtest, config.objective);
      }
    }

    /** Whatever its sort does with equals, grid search returns the best Calmar (or Sortino) ratio
        if and only if all survivors have the same one. */
    lemma BlindSearchIff(combos: seq<Genes>)
      requires ReadsUncopied(config.objective) && Survivors(combos) != []
      ensures FindsBestRatio(combos) <==> RatiosTie(combos)
    {
      SurvivorsOf(combos);
      if FindsBestRatio(combos) {
        forall m, m' | m in combos && m' in combos && backtest(m).Some? && backtest(m').Some?
          ensures RatioOf(m) == RatioOf(m')
        {
          var pop := AnySurvivorCanWin(combos, m);
          var pop' := AnySurvivorCanWin(combos, m');
          assert HasBestRatio(pop[0].genes, combos) && HasBestRatio(pop'[0].genes, combos);
        }
      }
      if RatiosTie(combos) {
        forall pop: seq<Individual> | IsSearchResult(pop, combos)
          ensures pop != [] && HasBestRatio(pop[0].genes, combos)
        {
          SameMembers(pop, Survivors(combos));
          assert pop[0] in Survivors(combos);
        }
      }
    }
  }

  // ----- a search that picks the worse of two -----

  /** Calmar ratio 1 for the value 0 of "x", and 2 for any other genes. */
  const TWO_WAYS: Backtester :=
    (genes: Genes) => Some(NO_METRICS.(calmarRatio := if genes == map["x" := Number(0.0)] then 1.0 else 2.0))

  /** Among the values 0 and 1, a search by Calmar ratio can return 0. */
  lemma BlindPick(o: Optimizer) returns (pop: seq<Individual>)
    requires o.backtest == TWO_WAYS && o.config.objective == "calmar"
    ensures var worse: Genes, better: Genes := map["x" := Number(0.0)], map["x" := Number(1.0)];
            && o.IsSearchResult(pop, [worse, better]) && pop != [] && pop[0].genes == worse
            && o.RatioOf(worse) == 1.0 && o.RatioOf(better) == 2.0
  {
    var worse: Genes, better: Genes := map["x" := Number(0.0)], map["x" := Number(1.0)];
    assert worse["x"] != better["x"];
    pop := o.AnySurvivorCanWin([worse, better], worse);
  }
}
