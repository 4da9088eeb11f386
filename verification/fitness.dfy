/** Scoring tours by the length of the closed round trip they describe. */
module Fitness {
  import opened Tours
  import opened Sums

  /** Great-circle distance between two locations, given by their indices.
      The program computes it with floating-point trigonometry; here it is
      an arbitrary function, called with its arguments in the program's order. */
  type Metric = (int, int) -> real

  /** A member's position in the population paired with its fitness. */
  datatype Record = Record(index: int, fitness: real)

  /** `std::adjacent_difference` with op(current, previous) = dist(current, previous):
      the first slot copies t[0], slot k holds dist(t[k], t[k-1]). */
  function AdjacentDifference(dist: Metric, t: Tour): (d: seq<real>)
    requires 0 < |t|
    ensures |d| == |t|
    ensures d[0] == t[0] as real
    ensures forall k {:trigger d[k]} :: 1 <= k < |t| ==> d[k] == dist(t[k], t[k - 1])
  {
    [t[0] as real] + LegTable(dist, t)
  }

  /** Fitness of one tour as the program computes it: the adjacent differences
      with the first slot overwritten by the closing edge dist(t[0], t[n-1]),
      then accumulated. The total is the length of the round trip that
      returns to the first location. */
  function TourFitness(dist: Metric, t: Tour): (f: real)
    requires 0 < |t|
    ensures f == RoundTrip(dist, t)
  {
    FitnessIsRoundTrip(dist, t);
    Sum(AdjacentDifference(dist, t)[0 := dist(t[0], t[|t| - 1])])
  }

  /** Reference definition: the legs walked from the front, each leg from
      the later location back to the earlier one, as the program orders the
      arguments. */
  function Legs(dist: Metric, t: Tour): real
    decreases |t|
  {
    if |t| < 2 then 0.0 else dist(t[1], t[0]) + Legs(dist, t[1..])
  }

  /** The legs after position 0, as the program lays them out. */
  function LegTable(dist: Metric, t: Tour): (legs: seq<real>)
    requires 0 < |t|
    ensures |legs| == |t| - 1
    ensures forall k {:trigger legs[k]} :: 0 <= k < |t| - 1 ==> legs[k] == dist(t[k + 1], t[k])
  {
    seq(|t| - 1, k requires 0 <= k < |t| - 1 => dist(t[k + 1], t[k]))
  }

  lemma {:induction false} LegTableSum(dist: Metric, t: Tour)
    requires 0 < |t|
    ensures Sum(LegTable(dist, t)) == Legs(dist, t)
    decreases |t|
  {
    if |t| >= 2 {
      LegTableSum(dist, t[1..]);
      assert LegTable(dist, t) == [dist(t[1], t[0])] + LegTable(dist, t[1..]);
      SumCons(dist(t[1], t[0]), LegTable(dist, t[1..]));
    } else {
      assert LegTable(dist, t) == [];
    }
  }

  /** Reference definition of a round trip: the closing edge from the first
      location to the last, plus the legs. */
  function RoundTrip(dist: Metric, t: Tour): real
    requires 0 < |t|
  {
    dist(t[0], t[|t| - 1]) + Legs(dist, t)
  }

  /** The adjacent differences with slot 0 overwritten by the closing edge
      accumulate to the closing edge plus every leg. */
  lemma FitnessIsRoundTrip(dist: Metric, t: Tour)
    requires 0 < |t|
    ensures Sum(AdjacentDifference(dist, t)[0 := dist(t[0], t[|t| - 1])]) == RoundTrip(dist, t)
  {
    var closing := dist(t[0], t[|t| - 1]);
    var legs := LegTable(dist, t);
    assert AdjacentDifference(dist, t)[0 := closing] == [closing] + legs;
    SumCons(closing, legs);
    LegTableSum(dist, t);
  }

  /** One record per member, in population order, keyed by the member's
      position (the running counter of the scan), scored by its round trip;
      the population itself is only read. */
  function ComputeFitnesses(pop: Population, dist: Metric): (table: seq<Record>)
    requires forall k :: 0 <= k < |pop| ==> 0 < |pop[k]|
    ensures |table| == |pop|
    ensures forall k :: 0 <= k < |table| ==> table[k].index == k
    ensures forall k :: 0 <= k < |table| ==> table[k].fitness == RoundTrip(dist, pop[k])
  {
    seq(|pop|, k requires 0 <= k < |pop| => Record(k, TourFitness(dist, pop[k])))
  }
}
