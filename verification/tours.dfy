/** Tours and populations: a tour lists location indices in visiting order,
    the return leg to the first entry being implied; a population is an
    ordered collection of tours over the same location set. */
module Tours {

  type Tour = seq<int>

  type Population = seq<Tour>

  /** No entry occurs twice. */
  ghost predicate Distinct(t: seq<int>) {
    forall i, j :: 0 <= i < j < |t| ==> t[i] != t[j]
  }

  /** `t` lists each of 0..n-1 exactly once. */
  ghost predicate IsPerm(t: seq<int>, n: int) {
    && |t| == n
    && Distinct(t)
    && (forall x :: x in t <==> 0 <= x < n)
  }

  /** A tour the algorithm may hold: a permutation of 0..n-1 that starts at
      the anchor location 0. */
  ghost predicate ValidTour(t: seq<int>, n: int) {
    IsPerm(t, n) && 0 < |t| && t[0] == 0
  }

  /** `popSize` valid tours over `n` locations. */
  ghost predicate ValidPopulation(pop: Population, popSize: int, n: int) {
    |pop| == popSize && forall k :: 0 <= k < |pop| ==> ValidTour(pop[k], n)
  }

  /** The values 0..n-1. */
  ghost function Below(n: nat): (r: set<int>)
    ensures forall x :: x in r <==> 0 <= x < n
  {
    if n == 0 then {} else Below(n - 1) + {n - 1}
  }

  /** The values a sequence holds. */
  ghost function Elements(t: seq<int>): set<int> {
    set x | x in t
  }

  lemma {:induction false} BelowCard(n: nat)
    ensures |Below(n)| == n
  {
    if n > 0 {
      BelowCard(n - 1);
    }
  }

  lemma {:induction false} DistinctCard(t: seq<int>)
    requires Distinct(t)
    ensures |Elements(t)| == |t|
  {
    if |t| > 0 {
      var init := t[..|t| - 1];
      DistinctCard(init);
      assert t == init + [t[|t| - 1]];
      assert Elements(t) == Elements(init) + {t[|t| - 1]};
      assert t[|t| - 1] !in Elements(init);
    }
  }

  /** A duplicate-free sequence holding exactly the values 0..n-1 has length n,
      so the length conjunct of IsPerm follows from the other two. */
  lemma PermByContents(t: seq<int>, n: nat)
    requires Distinct(t)
    requires forall x :: x in t <==> 0 <= x < n
    ensures IsPerm(t, n)
  {
    assert Elements(t) == Below(n);
    DistinctCard(t);
    BelowCard(n);
  }
}
