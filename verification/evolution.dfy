/** The evolution driver: seed a population, run the configured number of
    generations of evaluate, select and reproduce, evaluate the last
    population and report its best tour. */
module Evolution {
  import opened Tours
  import opened Seeding
  import opened Fitness
  import opened Selection
  import opened Reproduction

  /** The draws one generation spends: two roulette draws per parent pair,
      then the draws of each child. */
  datatype GenerationDraws = GenerationDraws(parents: seq<(real, real)>, children: seq<ChildDraw>)

  /** Draws the program's distributions can produce for `popSize` members
      of `n` locations: roulette draws in [0, 1), crossover indices in 1..n-2,
      swap positions in 1..n-1. */
  ghost predicate GoodDraws(g: GenerationDraws, popSize: int, n: int) {
    && |g.parents| == popSize
    && (forall k :: 0 <= k < popSize ==> 0.0 <= g.parents[k].0 < 1.0 && 0.0 <= g.parents[k].1 < 1.0)
    && |g.children| == popSize
    && (forall k :: 0 <= k < popSize ==>
          1 <= g.children[k].cut <= n - 2 && 1 <= g.children[k].swapA < n && 1 <= g.children[k].swapB < n)
  }

  /** The parameters fixed for a whole run. */
  datatype Config = Config(n: int, popSize: int, chancePercent: int, dist: Metric)

  ghost predicate GoodConfig(c: Config) {
    2 <= c.popSize && 3 <= c.n
  }

  lemma PairsBreedable(c: Config, pop: Population, sel: Selected, g: GenerationDraws)
    requires GoodConfig(c)
    requires ValidPopulation(pop, c.popSize, c.n)
    requires GoodDraws(g, c.popSize, c.n)
    requires |sel.pairs| == c.popSize
    requires forall k :: 0 <= k < c.popSize ==>
               0 <= sel.pairs[k].first < c.popSize && 0 <= sel.pairs[k].second < c.popSize
    ensures PairsInRange(sel.pairs, pop)
    ensures forall k :: 0 <= k < |sel.pairs| ==>
              Breedable(pop[sel.pairs[k].first], pop[sel.pairs[k].second], g.children[k], c.chancePercent)
  {
    forall k | 0 <= k < |sel.pairs|
      ensures Breedable(pop[sel.pairs[k].first], pop[sel.pairs[k].second], g.children[k], c.chancePercent)
    {
      BreedableFromValid(pop[sel.pairs[k].first], pop[sel.pairs[k].second], g.children[k], c.chancePercent, c.n);
    }
  }

  /** Pairs drawn from a valid population, with draws the program can make,
      meet every demand crossover makes, and breed a valid population. */
  lemma Breeding(c: Config, pop: Population, sel: Selected, g: GenerationDraws)
    requires GoodConfig(c)
    requires ValidPopulation(pop, c.popSize, c.n)
    requires GoodDraws(g, c.popSize, c.n)
    requires |sel.pairs| == c.popSize
    requires forall k :: 0 <= k < c.popSize ==>
               0 <= sel.pairs[k].first < c.popSize && 0 <= sel.pairs[k].second < c.popSize
    ensures CrossoverReady(sel.pairs, c.n, g.children, pop, c.chancePercent)
    ensures ValidPopulation(Crossover(sel.pairs, c.n, g.children, pop, c.chancePercent), c.popSize, c.n)
  {
    PairsBreedable(c, pop, sel, g);
    CrossoverPreservesValidity(sel.pairs, c.n, g.children, pop, c.chancePercent);
  }

  /** The parent pairs of one generation: the population's fitness table,
      ranked and drawn from by roulette, one pair per member. */
  function Parents(c: Config, pop: Population, g: GenerationDraws): (sel: Selected)
    requires GoodConfig(c)
    requires ValidPopulation(pop, c.popSize, c.n)
    requires GoodDraws(g, c.popSize, c.n)
    ensures |sel.pairs| == c.popSize
    ensures forall k :: 0 <= k < c.popSize ==>
              0 <= sel.pairs[k].first < c.popSize && 0 <= sel.pairs[k].second < c.popSize
  {
    Select(ComputeFitnesses(pop, c.dist), g.parents, c.popSize)
  }

  /** One generation: evaluate the population, select parent pairs from the
      fitness table, and replace the population by the children bred from it.
      Every population it is given and returns holds `popSize` valid tours. */
  function Generation(c: Config, pop: Population, g: GenerationDraws): (next: Population)
    requires GoodConfig(c)
    requires ValidPopulation(pop, c.popSize, c.n)
    requires GoodDraws(g, c.popSize, c.n)
    ensures ValidPopulation(next, c.popSize, c.n)
  {
    var sel := Parents(c, pop, g);
    Breeding(c, pop, sel, g);
    Crossover(sel.pairs, c.n, g.children, pop, c.chancePercent)
  }

  /** Every bundle in `draws` is one the program can draw. */
  ghost predicate AllGood(draws: seq<GenerationDraws>, popSize: int, n: int) {
    forall i :: 0 <= i < |draws| ==> GoodDraws(draws[i], popSize, n)
  }

  lemma GoodSlice(draws: seq<GenerationDraws>, popSize: int, n: int, lo: int, hi: int)
    requires AllGood(draws, popSize, n)
    requires 0 <= lo <= hi <= |draws|
    ensures AllGood(draws[lo..hi], popSize, n)
  {
    var run := draws[lo..hi];
    forall i | 0 <= i < |run|
      ensures GoodDraws(run[i], popSize, n)
    {
      assert run[i] == draws[lo + i];
    }
  }

  /** The generation loop `for genNumber in genNumber..numGenerations`,
      generation g spending draws[g-1]. */
  function EvolveFrom(c: Config, pop: Population, genNumber: int, numGenerations: int, draws: seq<GenerationDraws>): (last: Population)
    requires genNumber <= numGenerations ==> GoodConfig(c)
    requires 1 <= genNumber
    requires ValidPopulation(pop, c.popSize, c.n)
    requires numGenerations <= |draws|
    requires genNumber <= numGenerations ==> AllGood(draws[genNumber - 1..numGenerations], c.popSize, c.n)
    ensures ValidPopulation(last, c.popSize, c.n)
    decreases numGenerations - genNumber
  {
    if genNumber <= numGenerations then
      EvolveFromTail(c, genNumber, numGenerations, draws);
      EvolveFrom(c, Generation(c, pop, draws[genNumber - 1]), genNumber + 1, numGenerations, draws)
    else
      pop
  }

  /** The draws left after one turn of the loop are still ones the program
      can draw. */
  lemma EvolveFromTail(c: Config, genNumber: int, numGenerations: int, draws: seq<GenerationDraws>)
    requires 1 <= genNumber <= numGenerations <= |draws|
    requires AllGood(draws[genNumber - 1..numGenerations], c.popSize, c.n)
    ensures GoodDraws(draws[genNumber - 1], c.popSize, c.n)
    ensures genNumber + 1 <= numGenerations ==> AllGood(draws[genNumber..numGenerations], c.popSize, c.n)
  {
    var run := draws[genNumber - 1..numGenerations];
    assert run[0] == draws[genNumber - 1];
    GoodSlice(run, c.popSize, c.n, 1, |run|);
    assert run[1..] == draws[genNumber..numGenerations];
  }

  /** Reference definition: one generation per draw bundle, in order. */
  function Iterate(c: Config, pop: Population, draws: seq<GenerationDraws>): (last: Population)
    requires 0 < |draws| ==> GoodConfig(c)
    requires ValidPopulation(pop, c.popSize, c.n)
    requires AllGood(draws, c.popSize, c.n)
    ensures ValidPopulation(last, c.popSize, c.n)
    decreases |draws|
  {
    if |draws| == 0 then pop
    else
      GoodSlice(draws, c.popSize, c.n, 1, |draws|);
      Iterate(c, Generation(c, pop, draws[0]), draws[1..])
  }

  /** How many generations a count runs: none when it is not positive. */
  function Generations(numGenerations: int): nat {
    if numGenerations > 0 then numGenerations else 0
  }

  /** The loop from generation `genNumber` runs exactly the generations
      genNumber..numGenerations, each on the population the previous one
      produced. */
  lemma {:induction false} EvolveFromIsIterate(c: Config, pop: Population, genNumber: int, numGenerations: int, draws: seq<GenerationDraws>)
    requires genNumber <= numGenerations ==> GoodConfig(c)
    requires 1 <= genNumber <= numGenerations + 1
    requires ValidPopulation(pop, c.popSize, c.n)
    requires numGenerations <= |draws|
    requires AllGood(draws[genNumber - 1..numGenerations], c.popSize, c.n)
    ensures EvolveFrom(c, pop, genNumber, numGenerations, draws) == Iterate(c, pop, draws[genNumber - 1..numGenerations])
    decreases numGenerations - genNumber
  {
    if genNumber <= numGenerations {
      EvolveFromTail(c, genNumber, numGenerations, draws);
      var next := Generation(c, pop, draws[genNumber - 1]);
      EvolveFromIsIterate(c, next, genNumber + 1, numGenerations, draws);
      var run := draws[genNumber - 1..numGenerations];
      assert run[0] == draws[genNumber - 1] && run[1..] == draws[genNumber..numGenerations];
    } else {
      assert draws[genNumber - 1..numGenerations] == [];
    }
  }

  /** The driver runs the generation cycle exactly max(0, numGenerations)
      times, starting from the seeded population, and leaves it unchanged
      when the count is not positive. */
  lemma DriverRunsEveryGeneration(c: Config, pop: Population, numGenerations: int, draws: seq<GenerationDraws>)
    requires 1 <= numGenerations ==> GoodConfig(c)
    requires ValidPopulation(pop, c.popSize, c.n)
    requires Generations(numGenerations) <= |draws|
    requires AllGood(draws[..Generations(numGenerations)], c.popSize, c.n)
    ensures numGenerations <= |draws|
    ensures 1 <= numGenerations ==> AllGood(draws[0..numGenerations], c.popSize, c.n)
    ensures EvolveFrom(c, pop, 1, numGenerations, draws) == Iterate(c, pop, draws[..Generations(numGenerations)])
    ensures numGenerations <= 0 ==> EvolveFrom(c, pop, 1, numGenerations, draws) == pop
  {
    if numGenerations > 0 {
      assert draws[0..numGenerations] == draws[..numGenerations];
      EvolveFromIsIterate(c, pop, 1, numGenerations, draws);
    } else {
      assert draws[..0] == [];
    }
  }

  /** `std::min_element` with a strict `<`: the first record of least fitness. */
  function FirstMinimum(table: seq<Record>): (best: int)
    requires 0 < |table|
    ensures 0 <= best < |table|
    ensures forall j :: 0 <= j < |table| ==> table[best].fitness <= table[j].fitness
    ensures forall j :: 0 <= j < best ==> table[best].fitness < table[j].fitness
  {
    MinFrom(table, 1, 0)
  }

  /** The scan from position i with the smallest record so far at `best`. */
  function MinFrom(table: seq<Record>, i: int, best: int): (r: int)
    requires 0 <= best < i <= |table|
    requires forall j :: 0 <= j < i ==> table[best].fitness <= table[j].fitness
    requires forall j :: 0 <= j < best ==> table[best].fitness < table[j].fitness
    ensures best <= r < |table|
    ensures forall j :: 0 <= j < |table| ==> table[r].fitness <= table[j].fitness
    ensures forall j :: 0 <= j < r ==> table[r].fitness < table[j].fitness
    decreases |table| - i
  {
    if i == |table| then best
    else MinFrom(table, i + 1, if table[i].fitness < table[best].fitness then i else best)
  }

  /** What a run reports: the last population, its freshly computed fitness
      table, the position of the best record in it, and that record's route
      and distance. */
  datatype Outcome = Outcome(population: Population, table: seq<Record>, best: int, route: Tour, distance: real)

  /** The report on a final population: its freshly computed fitness table
      and the first record of least fitness, with that record's route and
      distance. */
  function Report(c: Config, last: Population): (out: Outcome)
    requires 1 <= c.popSize
    requires ValidPopulation(last, c.popSize, c.n)
    ensures out.population == last
    ensures |out.table| == c.popSize
    ensures forall k :: 0 <= k < c.popSize ==>
              out.table[k].index == k && out.table[k].fitness == RoundTrip(c.dist, last[k])
    ensures 0 <= out.best < c.popSize
    ensures forall k :: 0 <= k < c.popSize ==> out.distance <= out.table[k].fitness
    ensures forall k :: 0 <= k < out.best ==> out.distance < out.table[k].fitness
    ensures out.route == last[out.best]
    ensures ValidTour(out.route, c.n)
    ensures out.distance == RoundTrip(c.dist, out.route)
  {
    var table := ComputeFitnesses(last, c.dist);
    var best := FirstMinimum(table);
    var element := table[best].index;
    Outcome(last, table, best, last[element], table[best].fitness)
  }

  /** A whole run: seed, evolve for the configured number of generations,
      and report on the last population. The bounds of `GoodConfig` matter
      only once a generation runs; seeding and the report need one member
      and one location. */
  function Run(c: Config, shuffles: seq<seq<int>>, numGenerations: int, draws: seq<GenerationDraws>): (out: Outcome)
    requires 1 <= c.popSize && 1 <= c.n
    requires 1 <= numGenerations ==> GoodConfig(c)
    requires |shuffles| == c.popSize
    requires forall k :: 0 <= k < c.popSize ==> IsPerm(shuffles[k], c.n - 1)
    requires Generations(numGenerations) <= |draws|
    requires AllGood(draws[..Generations(numGenerations)], c.popSize, c.n)
    ensures out.population == Iterate(c, FillInitialPopulation(c.popSize, c.n, shuffles), draws[..Generations(numGenerations)])
    ensures numGenerations <= 0 ==> out.population == FillInitialPopulation(c.popSize, c.n, shuffles)
    ensures out == Report(c, out.population)
  {
    var initial := FillInitialPopulation(c.popSize, c.n, shuffles);
    DriverRunsEveryGeneration(c, initial, numGenerations, draws);
    Report(c, EvolveFrom(c, initial, 1, numGenerations, draws))
  }
}
