# Genetic-algorithm core of a travelling-salesman solver, in Dafny

This project models the genetic algorithm in `src/TSP.cpp` of a small C++
travelling-salesman solver, and the driver loop in `src/SrcMain.cpp` that runs it.
A tour is a sequence of location indices. Position 0 holds the anchor location 0,
and the return leg to it is implied. A population is an ordered sequence of tours.
One run has these steps:

- **Seeding** (`FillInitialPopulation`) builds `popSize` identity tours `0..n-1`
  and shuffles every position after the anchor.
- **Fitness** (`computeFitnesses`) scores each member by the length of its closed
  round trip. It returns `(index, fitness)` records in population order.
- **Selection** (`Select`, `divEachBy`):
  - sorts the fitness table by fitness;
  - weights population positions by rank: 6/popSize for the two best, 3/popSize
    for ranks 2..popSize/2-1, and 1/popSize for every other position;
  - normalises the weights by their total;
  - draws `popSize` parent pairs by roulette-wheel sampling.
- **Reproduction** (`Crossover`) breeds one child per pair:
  - single-point crossover: a prefix of one parent, chosen by a coin, then the
    other parent's remaining locations in their order;
  - an optional swap mutation that never touches position 0.
- **Driver** (`ProcessCommandArgs`) seeds, runs the evaluate–select–reproduce
  cycle `numGenerations` times, evaluates the last population once more, and
  reports the first record of least fitness with its route.

Modules, in dependency order:

| module | file | contents |
|---|---|---|
| `Tours` | tours.dfy | tours, populations, the permutation and validity predicates |
| `Sums` | sums.dfy | left-fold sums and prefix sums of reals (`std::accumulate`) |
| `Seeding` | seeding.dfy | the seeded population |
| `Fitness` | fitness.dfy | `std::adjacent_difference`, fitness, the round-trip reference |
| `Selection` | selection.dfy | sort, rank weights, `divEachBy`, roulette, `Select` |
| `Reproduction` | reproduction.dfy | crossover, mutation, `Crossover` |
| `Evolution` | evolution.dfy | one generation, the generation loop, the final report |

Every random choice the program makes is an explicit parameter, called a *draw*:

- the shuffle of each member is a permutation `sigma` of `0..n-2`, where tail
  position `j+1` receives the entry at `sigma[j]+1`;
- each parent of a pair comes from its own roulette draw in [0, 1);
- each child takes a `ChildDraw`, which holds:
  - the crossover index;
  - the coin;
  - the mutation draw in [0, 1);
  - the two swap positions.

The great-circle distance is a parameter `dist: (int, int) -> real` over location
indices. It is always called with its arguments in the program's order:

- `std::adjacent_difference` calls its operation as (current, previous), so the
  leg into position k is `dist(t[k], t[k-1])`;
- the closing edge is `dist(t[0], t[n-1])`.

Nothing is assumed about `dist`.

Three facts about the code shape the model:

- `std::sort` is not stable, so the order of records with equal fitness is
  unspecified.
- Each leg is `dist(t[k], t[k-1])` and the closing edge is `dist(t[0], t[n-1])`.
  The model keeps this argument order, because `dist` is not assumed symmetric.
- The code checks neither `popSize >= 2` nor `n >= 3`. These bounds matter only
  once a generation runs: `Select` reads the second-best record
  (src/TSP.cpp:203), and `Crossover` draws its crossover index from 1..n-2
  (src/TSP.cpp:303). The model states them as `GoodConfig`, required by each
  generation. A run with no generations needs only one member and one location
  (`Evolution.Run`).

## Model

| member | source | states |
|---|---|---|
| `Seeding.ShuffleTail` | src/TSP.cpp:69-77 | the shuffled tour keeps position 0 and moves, for each j, the tail entry at sigma[j]+1 to position j+1 |
| `Seeding.FillInitialPopulation` | src/TSP.cpp:61-89 | exactly popSize members; each is a permutation of 0..n-1 with 0 first; its tail is the member's shuffle draw shifted by one |
| `Seeding.ShuffledIdentityValid` | src/TSP.cpp:66-81 | shuffling positions 1.. of the identity tour by any permutation gives a valid tour |
| `Seeding.SeedingReachesEveryTour` | src/TSP.cpp:66-81 | every valid tour is the seeding result of some shuffle draw, so seeding produces exactly the valid tours |
| `Fitness.AdjacentDifference` | src/TSP.cpp:139-141 | slot 0 copies the first location; slot k holds the leg dist(t[k], t[k-1]) |
| `Fitness.LegTableSum` | src/TSP.cpp:139-149 | the adjacent legs, accumulated left to right, sum to the legs of the walk from the front |
| `Fitness.FitnessIsRoundTrip` | src/TSP.cpp:136-149 | the adjacent differences, with slot 0 overwritten by the closing edge dist(t[0], t[n-1]) and then accumulated, equal the closing edge plus every leg dist(t[k], t[k-1]) |
| `Fitness.TourFitness` | src/TSP.cpp:136-149 | a member's fitness, as the scan computes it, is the length of its closed round trip |
| `Fitness.ComputeFitnesses` | src/TSP.cpp:127-161 | one record per member in population order; record k is keyed k and scored with member k's round trip |
| `Selection.SortByFitness` | src/TSP.cpp:190-192 | the ranked table is ascending by fitness and is a permutation of the input table |
| `Selection.TripleRanksEffect` | src/TSP.cpp:206-208 | the boost loop multiplies by 3 the slot of each rank in lo..hi-1 and leaves every other slot unchanged |
| `Selection.BoostBestEffect` | src/TSP.cpp:197-203 | after the uniform fill and the two ×6 boosts, the slots of ranks 0 and 1 hold 6/popSize and every other slot holds 1/popSize |
| `Selection.RankWeights` | src/TSP.cpp:194-208 | one positive weight per population position |
| `Selection.RankWeightsLayout` | src/TSP.cpp:194-208 | with distinct boosted ranks: 6/popSize for ranks 0 and 1, 3/popSize for ranks 2..popSize/2-1, and 1/popSize for every slot no boosted rank names |
| `Selection.RankedKeysDistinct` | src/TSP.cpp:190-192 | sorting a table with distinct keys keeps the keys distinct |
| `Selection.SelectWeights` | src/TSP.cpp:188-208 | for a table keyed by distinct positions, the ranking Select builds has distinct boosted ranks, and its weights follow the 6/3/1 layout |
| `Selection.DivEachBy` | src/TSP.cpp:261-271 | same length; each result times the denominator gives back the input element |
| `Selection.SumDivEachBy` | src/TSP.cpp:261-271 | dividing each element by d divides the total by d |
| `Selection.NormalisedSumsToOne` | src/TSP.cpp:211-215 | dividing a vector by its own non-zero total gives a vector that sums to 1 |
| `Selection.Probabilities` | src/TSP.cpp:194-215 | popSize probabilities, all positive, summing to 1 |
| `Selection.Roulette` | src/TSP.cpp:224-236 | the roulette index is the first position whose prefix sum reaches the draw |
| `Selection.RouletteIsFirstReaching` | src/TSP.cpp:224-250 | the roulette index equals i exactly when i is the first position reaching the draw |
| `Selection.Select` | src/TSP.cpp:188-257 | the table is ranked ascending and permuted; there are popSize pairs; each parent is the first position whose cumulative probability reaches its own draw |
| `Reproduction.AppendAbsent` | src/TSP.cpp:325-327 | the child keeps its prefix, holds the union of prefix and source, and stays duplicate-free |
| `Reproduction.AppendAbsentIsFilter` | src/TSP.cpp:325-327 | for a duplicate-free source, the copy_if result is the prefix followed by the source's entries missing from the prefix, in order |
| `Reproduction.Recombine` | src/TSP.cpp:302-327 | the child's first cut+1 entries are the leading parent's (parents.second on coin 0, else parents.first); valid parents give a valid child |
| `Reproduction.RecombineShape` | src/TSP.cpp:312-327 | the child is the leading parent's prefix followed by the trailing parent filtered against that prefix |
| `Reproduction.Swap` | src/TSP.cpp:336-339 | exactly the two positions exchange entries; a swap away from position 0 keeps a valid tour valid |
| `Reproduction.Breed` | src/TSP.cpp:329-342 | the child equals the crossover result, except that a firing mutation (draw ≤ chance/100) exchanges the two swap positions; valid parents give a valid child |
| `Reproduction.BreedableFromValid` | src/TSP.cpp:303-304 | valid parents admit every crossover index in 1..n-2 and every swap position in 1..n-1 |
| `Reproduction.Crossover` | src/TSP.cpp:292-349 | one child per pair, in pair order, each bred from its own pair and draw |
| `Reproduction.CrossoverPreservesValidity` | src/TSP.cpp:299-348 | crossover of a valid population gives one valid tour per pair |
| `Evolution.Generation` | src/SrcMain.cpp:41-49 | one evaluate–select–reproduce cycle turns popSize valid tours into popSize valid tours |
| `Evolution.Parents` | src/SrcMain.cpp:41-45 | each generation evaluates the population and selects popSize parent pairs, every parent a position of the population |
| `Evolution.EvolveFrom` | src/SrcMain.cpp:39-52 | the generation loop keeps the population at popSize valid tours |
| `Evolution.EvolveFromIsIterate` | src/SrcMain.cpp:39-52 | the loop from genNumber runs generations genNumber..numGenerations in order, each on the previous generation's result |
| `Evolution.DriverRunsEveryGeneration` | src/SrcMain.cpp:39-52 | the driver runs exactly max(0, numGenerations) generations, and leaves the seeded population unchanged when the count is not positive |
| `Evolution.FirstMinimum` | src/SrcMain.cpp:61-63 | the chosen record's fitness is at most every record's, and strictly below every earlier record's |
| `Evolution.Report` | src/SrcMain.cpp:55-70 | the final table is recomputed in index order; the reported route is the best record's member, a valid tour, and the distance is its round trip |
| `Evolution.Run` | src/SrcMain.cpp:29-70 | the reported population is the seeded population after exactly max(0, numGenerations) generations (the seeded population itself when there are none, for any popSize ≥ 1 and n ≥ 1), and the report describes it |

## Left out

- `GetHaversineDistance` (src/TSP.cpp:165-183) is floating-point trigonometry. It
  is replaced by the parameter `dist`. Symmetry and `dist(a, a) == 0` are not
  assumed, because rounding does not guarantee them.
- `std::mt19937`, `std::shuffle` and the standard distributions are replaced by
  draws. The predicates on draws (`GoodDraws`, `IsPerm` of a shuffle) state only
  the ranges the distributions produce. The bit-exact sequence of a seed is not
  modelled.
- Floating point is replaced by exact reals. The roulette walk can overrun the
  probability vector when rounding leaves the total just below a draw. That
  overrun does not arise with exact reals and is not modelled.
- `ReadLocations`, every `Output*` function, and the argument parsing and logging
  in `ProcessCommandArgs` are file I/O and are not modelled. So is the
  location-name list that `OutputSolution` prints.
- `Location` records are not modelled. Tours hold location indices only.
- The `popSize` parameter of `Crossover` is unused by the code and is not
  modelled.
- `Select` sorts the caller's vector in place. The model returns the sorted table
  as `Selected.ranked` instead.
- `Selection.SortByFitness` is one concrete sort, an insertion sort. `std::sort`
  leaves the order of equal fitnesses unspecified, and the model picks one
  admissible order. `RankWeightsLayout` holds for every sorted ranking.
- `Selection.DivEachBy` requires a non-zero denominator. The code divides by the
  probability total, which is positive.
- `Seeding.FillInitialPopulation` requires `popSize >= 0` and at least one
  location. A negative size makes the vector constructor throw, and an empty
  tour makes the shuffle range invalid.
- `Evolution.Generation`, `Evolution.EvolveFrom` and `Evolution.Iterate` require
  `GoodConfig` (`popSize >= 2`, at least 3 locations) whenever a generation runs.
  Below these bounds the code reads past the fitness table or draws from an
  empty range.
- `Evolution.Generation`, `Evolution.EvolveFrom`, `Evolution.Iterate` and
  `Evolution.Report` also require a population of valid tours. Seeding
  establishes this invariant and every generation keeps it, so these members
  leave out populations the driver never builds. The code itself runs without
  fault on some such populations. With popSize 2 and n 3, for example, two
  copies of `[0, 1, 1]` breed the children `[0, 1]`.
- `Evolution.Run` requires `popSize >= 1` and at least one location. With
  `popSize == 0`, the code dereferences the end iterator that `std::min_element`
  returns for an empty table (src/SrcMain.cpp:61-63). With no locations,
  seeding shuffles from one past the end of an empty tour (src/TSP.cpp:77).
  Runs with no generations need nothing more. Runs with generations also need
  `GoodConfig`.
- `Fitness.ComputeFitnesses`, `Fitness.TourFitness` and `Fitness.AdjacentDifference`
  require non-empty members. For an empty member, the code writes `diffs[0]` of
  an empty vector (src/TSP.cpp:144). Seeding with at least one location never
  builds an empty member.
- The Catch2 reporter under `tests/` and the two Python diagnostics scripts are
  test and CI scaffolding, not part of the algorithm.
