/** Rank-weighted roulette selection of parent pairs. */
module Selection {
  import opened Sums
  import opened Fitness

  /** Two population positions: the parents of one child. */
  datatype Pair = Pair(first: int, second: int)

  /** The ranked fitness table (the caller's table after the in-place sort)
      and the parent pairs drawn from it. */
  datatype Selected = Selected(ranked: seq<Record>, pairs: seq<Pair>)

  // ---------------------------------------------------------------- ranking

  ghost predicate SortedByFitness(s: seq<Record>) {
    forall i, j :: 0 <= i < j < |s| ==> s[i].fitness <= s[j].fitness
  }

  function Insert(x: Record, s: seq<Record>): (r: seq<Record>)
    requires SortedByFitness(s)
    ensures SortedByFitness(r)
    ensures multiset(r) == multiset(s) + multiset{x}
    ensures forall e :: e in r <==> e == x || e in s
    decreases |s|
  {
    if |s| == 0 then [x]
    else if x.fitness <= s[0].fitness then [x] + s
    else
      var rest := Insert(x, s[1..]);
      assert s == [s[0]] + s[1..];
      forall j | 0 <= j < |rest|
        ensures s[0].fitness <= rest[j].fitness
      {
        assert rest[j] in rest;
      }
      assert multiset([s[0]] + rest) == multiset{s[0]} + multiset(rest);
      [s[0]] + rest
  }

  /** Ascending order of fitness, holding the same records. The program's
      sort is not stable, so the order among equal fitnesses is unspecified;
      this sort is one admissible choice. */
  function SortByFitness(s: seq<Record>): (r: seq<Record>)
    ensures SortedByFitness(r)
    ensures multiset(r) == multiset(s)
    ensures |r| == |s|
    decreases |s|
  {
    if |s| == 0 then []
    else
      assert s == [s[0]] + s[1..];
      Insert(s[0], SortByFitness(s[1..]))
  }

  // ---------------------------------------------------------------- weights

  /** How many leading ranks receive a boost: ranks 0 and 1, then ranks
      2..popSize/2-1 when that range is not empty. */
  function BoostedRanks(popSize: int): int {
    if popSize / 2 > 2 then popSize / 2 else 2
  }

  /** The ranks the weighting reads have their population position in range. */
  ghost predicate RanksInRange(ranked: seq<Record>, popSize: int) {
    && BoostedRanks(popSize) <= |ranked|
    && forall j :: 0 <= j < BoostedRanks(popSize) ==> 0 <= ranked[j].index < popSize
  }

  /** The boosted ranks name different population positions. */
  ghost predicate RanksDistinct(ranked: seq<Record>, popSize: int)
    requires RanksInRange(ranked, popSize)
  {
    forall a, b :: 0 <= a < b < BoostedRanks(popSize) ==> ranked[a].index != ranked[b].index
  }

  /** Position i is not named by any boosted rank. */
  ghost predicate Unboosted(ranked: seq<Record>, popSize: int, i: int)
    requires RanksInRange(ranked, popSize)
  {
    forall j :: 0 <= j < BoostedRanks(popSize) ==> ranked[j].index != i
  }

  /** `probabilities[i] *= f`. */
  function Scale(w: seq<real>, i: int, f: real): (r: seq<real>)
    requires 0 <= i < |w|
    ensures |r| == |w|
  {
    w[i := w[i] * f]
  }

  /** The loop over ranks lo..hi-1, tripling each rank's slot in turn. */
  function TripleRanks(w: seq<real>, ranked: seq<Record>, lo: int, hi: int): (r: seq<real>)
    requires 0 <= lo && hi <= |ranked|
    requires forall j :: lo <= j < hi ==> 0 <= ranked[j].index < |w|
    ensures |r| == |w|
    ensures (forall i :: 0 <= i < |w| ==> 0.0 < w[i]) ==> forall i :: 0 <= i < |r| ==> 0.0 < r[i]
    decreases hi - lo
  {
    if hi <= lo then w
    else TripleRanks(Scale(w, ranked[lo].index, 3.0), ranked, lo + 1, hi)
  }

  /** The base selection mass 1/popSize. */
  function Base(popSize: int): (b: real)
    requires 1 <= popSize
    ensures 0.0 < b && b * popSize as real == 1.0
  {
    1.0 / popSize as real
  }

  /** The starting mass 1/popSize for every population position. */
  function Uniform(popSize: int): (w: seq<real>)
    requires 1 <= popSize
    ensures |w| == popSize
    ensures forall i :: 0 <= i < popSize ==> w[i] == Base(popSize)
  {
    seq(popSize, _ => Base(popSize))
  }

  /** Uniform mass with the slots of ranks 0 and 1 multiplied by 6. */
  function BoostBest(ranked: seq<Record>, popSize: int): (w: seq<real>)
    requires 2 <= popSize
    requires RanksInRange(ranked, popSize)
    ensures |w| == popSize
    ensures forall i :: 0 <= i < popSize ==> 0.0 < w[i]
  {
    Scale(Scale(Uniform(popSize), ranked[0].index, 6.0), ranked[1].index, 6.0)
  }

  /** The selection weights before normalisation, indexed by population
      position: 1/popSize each, times 6 for the slots of ranks 0 and 1, times 3
      for the slots of ranks 2..popSize/2-1. */
  function RankWeights(ranked: seq<Record>, popSize: int): (w: seq<real>)
    requires 2 <= popSize
    requires RanksInRange(ranked, popSize)
    ensures |w| == popSize
    ensures forall i :: 0 <= i < popSize ==> 0.0 < w[i]
  {
    TripleRanks(BoostBest(ranked, popSize), ranked, 2, popSize / 2)
  }

  lemma {:induction false} TripleRanksEffect(w: seq<real>, ranked: seq<Record>, lo: int, hi: int)
    requires 0 <= lo && hi <= |ranked|
    requires forall j :: lo <= j < hi ==> 0 <= ranked[j].index < |w|
    requires forall a, b :: lo <= a < b < hi ==> ranked[a].index != ranked[b].index
    ensures forall j :: lo <= j < hi ==> TripleRanks(w, ranked, lo, hi)[ranked[j].index] == w[ranked[j].index] * 3.0
    ensures forall i :: 0 <= i < |w| && (forall j :: lo <= j < hi ==> ranked[j].index != i) ==>
              TripleRanks(w, ranked, lo, hi)[i] == w[i]
    decreases hi - lo
  {
    if lo < hi {
      TripleRanksEffect(Scale(w, ranked[lo].index, 3.0), ranked, lo + 1, hi);
    }
  }

  /** With distinct best two, their slots hold 6/popSize, every other slot 1/popSize. */
  lemma BoostBestEffect(ranked: seq<Record>, popSize: int)
    requires 2 <= popSize
    requires RanksInRange(ranked, popSize)
    requires ranked[0].index != ranked[1].index
    ensures var w := BoostBest(ranked, popSize);
            && w[ranked[0].index] == 6.0 * Base(popSize)
            && w[ranked[1].index] == 6.0 * Base(popSize)
            && forall i :: 0 <= i < popSize && i != ranked[0].index && i != ranked[1].index ==>
                 w[i] == Base(popSize)
  {
  }

  /** The middle ranks leave the two best slots alone. */
  lemma RankWeightsBest(ranked: seq<Record>, popSize: int)
    requires 2 <= popSize
    requires RanksInRange(ranked, popSize)
    requires RanksDistinct(ranked, popSize)
    ensures RankWeights(ranked, popSize)[ranked[0].index] == 6.0 * Base(popSize)
    ensures RankWeights(ranked, popSize)[ranked[1].index] == 6.0 * Base(popSize)
  {
    var b := BoostBest(ranked, popSize);
    BoostBestEffect(ranked, popSize);
    TripleRanksEffect(b, ranked, 2, popSize / 2);
  }

  lemma RankWeightsMiddle(ranked: seq<Record>, popSize: int)
    requires 2 <= popSize
    requires RanksInRange(ranked, popSize)
    requires RanksDistinct(ranked, popSize)
    ensures forall j :: 2 <= j < popSize / 2 ==> RankWeights(ranked, popSize)[ranked[j].index] == 3.0 * Base(popSize)
  {
    var b := BoostBest(ranked, popSize);
    BoostBestEffect(ranked, popSize);
    TripleRanksEffect(b, ranked, 2, popSize / 2);
    forall j | 2 <= j < popSize / 2
      ensures b[ranked[j].index] == Base(popSize)
    {
      assert ranked[0].index != ranked[j].index && ranked[1].index != ranked[j].index;
    }
  }

  lemma RankWeightsRest(ranked: seq<Record>, popSize: int)
    requires 2 <= popSize
    requires RanksInRange(ranked, popSize)
    requires RanksDistinct(ranked, popSize)
    ensures forall i :: 0 <= i < popSize && Unboosted(ranked, popSize, i) ==>
              RankWeights(ranked, popSize)[i] == Base(popSize)
  {
    var b := BoostBest(ranked, popSize);
    BoostBestEffect(ranked, popSize);
    TripleRanksEffect(b, ranked, 2, popSize / 2);
  }

  /** When the boosted ranks name distinct positions, every slot gets exactly
      one multiplier: 6/popSize for the two best, 3/popSize for ranks
      2..popSize/2-1, and 1/popSize for every slot no boosted rank names. */
  lemma RankWeightsLayout(ranked: seq<Record>, popSize: int)
    requires 2 <= popSize
    requires RanksInRange(ranked, popSize)
    requires RanksDistinct(ranked, popSize)
    ensures var w := RankWeights(ranked, popSize);
            && w[ranked[0].index] == 6.0 * Base(popSize)
            && w[ranked[1].index] == 6.0 * Base(popSize)
            && (forall j :: 2 <= j < popSize / 2 ==> w[ranked[j].index] == 3.0 * Base(popSize))
            && (forall i :: 0 <= i < popSize && Unboosted(ranked, popSize, i) ==> w[i] == Base(popSize))
  {
    RankWeightsBest(ranked, popSize);
    RankWeightsMiddle(ranked, popSize);
    RankWeightsRest(ranked, popSize);
  }

  // ---------------------------------------------------------- normalisation

  /** Every element of `v` divided by `d`. */
  function DivEachBy(v: seq<real>, d: real): (r: seq<real>)
    requires d != 0.0
    ensures |r| == |v|
    ensures forall i :: 0 <= i < |v| ==> r[i] * d == v[i]
  {
    seq(|v|, i requires 0 <= i < |v| => v[i] / d)
  }

  /** Dividing each element by `d` divides the total by `d`. */
  lemma {:induction false} SumDivEachBy(v: seq<real>, d: real)
    requires d != 0.0
    ensures Sum(DivEachBy(v, d)) == Sum(v) / d
    decreases |v|
  {
    if |v| > 0 {
      var init := v[..|v| - 1];
      assert DivEachBy(v, d)[..|v| - 1] == DivEachBy(init, d);
      SumDivEachBy(init, d);
    }
  }

  /** Normalising by the total yields a vector that sums to one. */
  lemma NormalisedSumsToOne(v: seq<real>)
    requires Sum(v) != 0.0
    ensures Sum(DivEachBy(v, Sum(v))) == 1.0
  {
    var total := Sum(v);
    SumDivEachBy(v, total);
    assert total / total == 1.0;
  }

  /** The normalised selection probabilities, indexed by population position. */
  function Probabilities(ranked: seq<Record>, popSize: int): (p: seq<real>)
    requires 2 <= popSize
    requires RanksInRange(ranked, popSize)
    ensures |p| == popSize
    ensures Sum(p) == 1.0
    ensures forall i :: 0 <= i < popSize ==> 0.0 < p[i]
  {
    var w := RankWeights(ranked, popSize);
    SumPositive(w);
    NormalisedSumsToOne(w);
    DivEachBy(w, Sum(w))
  }

  // ---------------------------------------------------------------- roulette

  /** `i` is the first position whose running total reaches `draw`. */
  ghost predicate FirstReaching(p: seq<real>, draw: real, i: int) {
    && 0 <= i < |p|
    && draw <= Prefix(p, i)
    && forall j :: 0 <= j < i ==> Prefix(p, j) < draw
  }

  /** Roulette-wheel sampling: walk the probabilities in position order,
      accumulating, and stop at the first position whose total reaches the draw. */
  function Roulette(p: seq<real>, draw: real): (i: int)
    requires 0 < |p| && draw <= Sum(p)
    ensures FirstReaching(p, draw, i)
  {
    assert p[..1][..0] == [];
    assert Prefix(p, 0) == Sum(p[..1][..0]) + p[0];
    RouletteFrom(p, draw, 0, p[0])
  }

  function RouletteFrom(p: seq<real>, draw: real, i: int, sum: real): (r: int)
    requires 0 <= i < |p| && draw <= Sum(p)
    requires sum == Prefix(p, i)
    requires forall j :: 0 <= j < i ==> Prefix(p, j) < draw
    ensures i <= r && FirstReaching(p, draw, r)
    decreases |p| - i
  {
    if sum < draw then
      PrefixLast(p);
      PrefixStep(p, i);
      RouletteFrom(p, draw, i + 1, sum + p[i + 1])
    else i
  }

  /** The roulette index is the only position that is first to reach the draw. */
  lemma RouletteIsFirstReaching(p: seq<real>, draw: real, i: int)
    requires 0 < |p| && draw <= Sum(p)
    ensures Roulette(p, draw) == i <==> FirstReaching(p, draw, i)
  {
  }

  // ---------------------------------------------------------------- select

  /** Sorts the table, weights the population positions by rank, normalises
      the weights, and draws `popSize` parent pairs, each parent from its own
      draw in [0, 1). */
  function Select(fitnesses: seq<Record>, draws: seq<(real, real)>, popSize: int): (out: Selected)
    requires 2 <= popSize
    requires BoostedRanks(popSize) <= |fitnesses|
    requires forall k :: 0 <= k < |fitnesses| ==> 0 <= fitnesses[k].index < popSize
    requires |draws| == popSize
    requires forall k :: 0 <= k < popSize ==> 0.0 <= draws[k].0 < 1.0 && 0.0 <= draws[k].1 < 1.0
    ensures SortedByFitness(out.ranked)
    ensures multiset(out.ranked) == multiset(fitnesses)
    ensures RanksInRange(out.ranked, popSize)
    ensures |out.pairs| == popSize
    ensures forall k :: 0 <= k < popSize ==>
              && 0 <= out.pairs[k].first < popSize
              && 0 <= out.pairs[k].second < popSize
    ensures forall k :: 0 <= k < popSize ==>
              && FirstReaching(Probabilities(out.ranked, popSize), draws[k].0, out.pairs[k].first)
              && FirstReaching(Probabilities(out.ranked, popSize), draws[k].1, out.pairs[k].second)
  {
    var ranked := SortByFitness(fitnesses);
    assert forall k :: 0 <= k < |ranked| ==> 0 <= ranked[k].index < popSize by {
      forall k | 0 <= k < |ranked|
        ensures 0 <= ranked[k].index < popSize
      {
        assert ranked[k] in multiset(fitnesses);
      }
    }
    var p := Probabilities(ranked, popSize);
    var pairs := seq(popSize, k requires 0 <= k < popSize =>
                       Pair(Roulette(p, draws[k].0), Roulette(p, draws[k].1)));
    Selected(ranked, pairs)
  }

  // ----------------------------------------------------- weights of a table

  /** A duplicate-free sequence holds each value at most once. */
  lemma {:induction false} DistinctMultiplicity(s: seq<Record>, x: Record)
    requires forall i, j :: 0 <= i < j < |s| ==> s[i] != s[j]
    ensures multiset(s)[x] <= 1
    decreases |s|
  {
    if |s| > 0 {
      var init := s[..|s| - 1];
      assert s == init + [s[|s| - 1]];
      DistinctMultiplicity(init, x);
      if x == s[|s| - 1] {
        forall i | 0 <= i < |init|
          ensures init[i] != x
        {
          assert s[i] != s[|s| - 1];
        }
      }
    }
  }

  /** A value occurring at two positions occurs at least twice. */
  lemma TwiceMultiplicity(s: seq<Record>, a: int, b: int)
    requires 0 <= a < b < |s| && s[a] == s[b]
    ensures multiset(s)[s[a]] >= 2
  {
    var front, back := s[..b], s[b + 1..];
    assert s == front + [s[b]] + back;
    assert s[a] == front[a];
  }

  /** Two ranked records with the same key are the same record, when the
      table's keys are distinct. */
  lemma SameKeySameRecord(fitnesses: seq<Record>, ranked: seq<Record>, a: int, b: int)
    requires forall a, b :: 0 <= a < b < |fitnesses| ==> fitnesses[a].index != fitnesses[b].index
    requires multiset(ranked) == multiset(fitnesses)
    requires 0 <= a < |ranked| && 0 <= b < |ranked|
    requires ranked[a].index == ranked[b].index
    ensures ranked[a] == ranked[b]
  {
    assert ranked[a] in multiset(fitnesses) && ranked[b] in multiset(fitnesses);
    var i :| 0 <= i < |fitnesses| && fitnesses[i] == ranked[a];
    var j :| 0 <= j < |fitnesses| && fitnesses[j] == ranked[b];
  }

  /** Sorting a table whose records are keyed by distinct positions keeps
      the keys distinct, so the boosted ranks name different positions. */
  lemma RankedKeysDistinct(fitnesses: seq<Record>, ranked: seq<Record>)
    requires forall a, b :: 0 <= a < b < |fitnesses| ==> fitnesses[a].index != fitnesses[b].index
    requires multiset(ranked) == multiset(fitnesses)
    ensures forall a, b :: 0 <= a < b < |ranked| ==> ranked[a].index != ranked[b].index
  {
    forall i, j | 0 <= i < j < |fitnesses|
      ensures fitnesses[i] != fitnesses[j]
    {
      assert fitnesses[i].index != fitnesses[j].index;
    }
    forall a, b | 0 <= a < b < |ranked|
      ensures ranked[a].index != ranked[b].index
    {
      if ranked[a].index == ranked[b].index {
        SameKeySameRecord(fitnesses, ranked, a, b);
        DistinctMultiplicity(fitnesses, ranked[a]);
        TwiceMultiplicity(ranked, a, b);
        assert false;
      }
    }
  }

  /** For a table keyed by distinct population positions, the weights Select
      builds from its ranking are 6/popSize for the two best, 3/popSize for
      ranks 2..popSize/2-1 and 1/popSize for every other position. */
  lemma SelectWeights(fitnesses: seq<Record>, draws: seq<(real, real)>, popSize: int)
    requires 2 <= popSize
    requires BoostedRanks(popSize) <= |fitnesses|
    requires forall k :: 0 <= k < |fitnesses| ==> 0 <= fitnesses[k].index < popSize
    requires forall a, b :: 0 <= a < b < |fitnesses| ==> fitnesses[a].index != fitnesses[b].index
    requires |draws| == popSize
    requires forall k :: 0 <= k < popSize ==> 0.0 <= draws[k].0 < 1.0 && 0.0 <= draws[k].1 < 1.0
    ensures var ranked := Select(fitnesses, draws, popSize).ranked;
            && RanksDistinct(ranked, popSize)
            && var w := RankWeights(ranked, popSize);
               && w[ranked[0].index] == 6.0 * Base(popSize)
               && w[ranked[1].index] == 6.0 * Base(popSize)
               && (forall j :: 2 <= j < popSize / 2 ==> w[ranked[j].index] == 3.0 * Base(popSize))
               && (forall i :: 0 <= i < popSize && Unboosted(ranked, popSize, i) ==> w[i] == Base(popSize))
  {
    var ranked := Select(fitnesses, draws, popSize).ranked;
    RankedKeysDistinct(fitnesses, ranked);
    RankWeightsLayout(ranked, popSize);
  }
}
