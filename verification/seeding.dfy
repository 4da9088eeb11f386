/** Building the first population: identity tours with every position after
    the anchor shuffled. The shuffle's outcome is passed in as a draw. */
module Seeding {
  import opened Tours

  /** The tour 0, 1, ..., n-1, filled by a counting generator. */
  function Identity(n: nat): (v: Tour)
    ensures |v| == n
    ensures forall i :: 0 <= i < n ==> v[i] == i
  {
    seq(n, i => i)
  }

  /** `v` with positions 1.. rearranged by `sigma`, a permutation of the
      positions 0..|v|-2 of the tail: the tail entry moved to position j+1 is
      the one at sigma[j]+1. Position 0 is never touched. */
  function ShuffleTail(v: Tour, sigma: seq<int>): (r: Tour)
    requires 0 < |v|
    requires IsPerm(sigma, |v| - 1)
    ensures |r| == |v| && r[0] == v[0]
    ensures forall i {:trigger r[i]} :: 1 <= i < |r| ==> sigma[i - 1] in sigma && r[i] == v[sigma[i - 1] + 1]
  {
    [v[0]] + seq(|v| - 1, j requires 0 <= j < |v| - 1 =>
                   assert sigma[j] in sigma; v[sigma[j] + 1])
  }

  /** `popSize` members, member k shuffled by `shuffles[k]`. */
  function FillInitialPopulation(popSize: int, n: int, shuffles: seq<seq<int>>): (pop: Population)
    requires 0 <= popSize && 1 <= n
    requires |shuffles| == popSize
    requires forall k :: 0 <= k < popSize ==> IsPerm(shuffles[k], n - 1)
    ensures ValidPopulation(pop, popSize, n)
    ensures forall k :: 0 <= k < popSize ==> |pop[k]| == |shuffles[k]| + 1
    ensures forall k, j {:trigger pop[k][j]} :: 0 <= k < popSize && 1 <= j < |pop[k]| ==> pop[k][j] == shuffles[k][j - 1] + 1
  {
    var pop := seq(popSize, k requires 0 <= k < popSize => ShuffleTail(Identity(n), shuffles[k]));
    assert forall k :: 0 <= k < popSize ==> pop[k] == ShuffleTail(Identity(n), shuffles[k]);
    forall k | 0 <= k < popSize
      ensures ValidTour(pop[k], n)
      ensures |pop[k]| == |shuffles[k]| + 1
      ensures forall j {:trigger pop[k][j]} :: 1 <= j < |pop[k]| ==> pop[k][j] == shuffles[k][j - 1] + 1
    {
      ShuffledIdentityValid(n, shuffles[k]);
      forall j | 1 <= j < |pop[k]|
        ensures pop[k][j] == shuffles[k][j - 1] + 1
      {
        assert shuffles[k][j - 1] in shuffles[k];
      }
    }
    pop
  }

  /** A shuffled identity tour is a valid tour. */
  lemma ShuffledIdentityValid(n: int, sigma: seq<int>)
    requires 1 <= n
    requires IsPerm(sigma, n - 1)
    ensures ValidTour(ShuffleTail(Identity(n), sigma), n)
  {
    var r := ShuffleTail(Identity(n), sigma);
    forall a, b | 0 <= a < b < n
      ensures r[a] != r[b]
    {
      assert sigma[b - 1] in sigma;
      if a > 0 {
        assert sigma[a - 1] in sigma;
      }
    }
    forall x
      ensures x in r <==> 0 <= x < n
    {
      if x in r {
        var i :| 0 <= i < n && r[i] == x;
        if i > 0 {
          assert sigma[i - 1] in sigma;
        }
      }
      if 0 < x < n {
        assert x - 1 in sigma;
        var j :| 0 <= j < n - 1 && sigma[j] == x - 1;
        assert r[j + 1] == x;
      }
      if x == 0 {
        assert r[0] == x;
      }
    }
  }

  /** The shuffle draw that would produce tour `t`. */
  function DrawFor(t: Tour): (sigma: seq<int>)
    requires 0 < |t|
    ensures |sigma| == |t| - 1
    ensures forall j {:trigger sigma[j]} :: 0 <= j < |sigma| ==> sigma[j] == t[j + 1] - 1
  {
    seq(|t| - 1, j requires 0 <= j < |t| - 1 => t[j + 1] - 1)
  }

  lemma DrawForIsPerm(n: int, t: Tour)
    requires 1 <= n
    requires ValidTour(t, n)
    ensures IsPerm(DrawFor(t), n - 1)
  {
    var sigma := DrawFor(t);
    forall a, b | 0 <= a < b < n - 1
      ensures sigma[a] != sigma[b]
    {
      assert t[a + 1] != t[b + 1];
    }
    forall x
      ensures x in sigma <==> 0 <= x < n - 1
    {
      if x in sigma {
        var j :| 0 <= j < n - 1 && sigma[j] == x;
        assert t[j + 1] in t;
        assert t[0] != t[j + 1];
      }
      if 0 <= x < n - 1 {
        assert x + 1 in t;
        var i :| 0 <= i < n && t[i] == x + 1;
        assert sigma[i - 1] == x;
      }
    }
  }

  /** Every valid tour is the outcome of some shuffle draw: seeding can
      produce exactly the valid tours and nothing else. */
  lemma SeedingReachesEveryTour(n: int, t: Tour)
    requires 1 <= n
    requires ValidTour(t, n)
    ensures IsPerm(DrawFor(t), n - 1) && ShuffleTail(Identity(n), DrawFor(t)) == t
  {
    DrawForIsPerm(n, t);
    var r := ShuffleTail(Identity(n), DrawFor(t));
    forall i | 1 <= i < n
      ensures r[i] == t[i]
    {
      assert t[i] in t;
    }
  }
}
