/** Building the next population: single-point order-preserving crossover of
    two parents, then an optional swap mutation that spares the anchor. */
module Reproduction {
  import opened Tours
  import opened Selection

  /** The random draws spent on one child: the crossover index, the coin
      choosing the parent that supplies the prefix, the mutation draw in
      [0, 1), and the two positions a mutation swaps. */
  datatype ChildDraw = ChildDraw(cut: int, coin: int, mutation: real, swapA: int, swapB: int)

  /** The parent that supplies the prefix: the second of the pair when the
      coin shows 0, the first otherwise. */
  function Leading(pa: Tour, pb: Tour, coin: int): Tour {
    if coin == 0 then pb else pa
  }

  /** The parent that supplies the rest. */
  function Trailing(pa: Tour, pb: Tour, coin: int): Tour {
    if coin == 0 then pa else pb
  }

  /** Appends, in order, each entry of `src` that the growing sequence does
      not yet hold. */
  function AppendAbsent(acc: seq<int>, src: seq<int>): (r: seq<int>)
    ensures |acc| <= |r| && r[..|acc|] == acc
    ensures forall x :: x in r <==> x in acc || x in src
    ensures Distinct(acc) ==> Distinct(r)
    decreases |src|
  {
    if |src| == 0 then acc
    else
      assert src == [src[0]] + src[1..];
      var acc' := if src[0] in acc then acc else acc + [src[0]];
      var r := AppendAbsent(acc', src[1..]);
      assert r[..|acc|] == r[..|acc'|][..|acc|];
      r
  }

  /** Reference definition: the entries of `src` not in `acc`, in order. */
  function Absent(src: seq<int>, acc: seq<int>): seq<int>
    decreases |src|
  {
    if |src| == 0 then []
    else (if src[0] in acc then [] else [src[0]]) + Absent(src[1..], acc)
  }

  lemma {:induction false} AbsentIgnores(src: seq<int>, acc: seq<int>, y: int)
    requires y !in src
    ensures Absent(src, acc + [y]) == Absent(src, acc)
    decreases |src|
  {
    if |src| > 0 {
      assert src[0] in acc + [y] <==> src[0] in acc;
      AbsentIgnores(src[1..], acc, y);
    }
  }

  /** For a duplicate-free source, appending what is absent is the same as
      filtering the source against the starting sequence alone. */
  lemma {:induction false} AppendAbsentIsFilter(acc: seq<int>, src: seq<int>)
    requires Distinct(src)
    ensures AppendAbsent(acc, src) == acc + Absent(src, acc)
    decreases |src|
  {
    if |src| > 0 {
      var y, rest := src[0], src[1..];
      DistinctTail(src);
      FilterStep(acc, src);
      if y in acc {
        AppendAbsentIsFilter(acc, rest);
      } else {
        AppendAbsentIsFilter(acc + [y], rest);
        AbsentIgnores(rest, acc, y);
        assert acc + [y] + Absent(rest, acc) == acc + ([y] + Absent(rest, acc));
      }
    }
  }

  lemma DistinctTail(src: seq<int>)
    requires Distinct(src) && 0 < |src|
    ensures Distinct(src[1..]) && src[0] !in src[1..]
  {
    var rest := src[1..];
    forall i, j | 0 <= i < j < |rest|
      ensures rest[i] != rest[j]
    {
      assert rest[i] == src[i + 1] && rest[j] == src[j + 1];
    }
  }

  /** One step of both scans over a non-empty source. */
  lemma FilterStep(acc: seq<int>, src: seq<int>)
    requires 0 < |src|
    ensures src[0] in acc ==>
              AppendAbsent(acc, src) == AppendAbsent(acc, src[1..]) && Absent(src, acc) == Absent(src[1..], acc)
    ensures src[0] !in acc ==>
              AppendAbsent(acc, src) == AppendAbsent(acc + [src[0]], src[1..]) && Absent(src, acc) == [src[0]] + Absent(src[1..], acc)
  {
    if src[0] in acc {
      assert Absent(src, acc) == [] + Absent(src[1..], acc);
    }
  }

  /** Single-point crossover: the leading parent's first cut+1 entries, then
      the trailing parent's entries the child does not yet hold, in order. */
  function Recombine(pa: Tour, pb: Tour, cut: int, coin: int): (child: Tour)
    requires 0 <= cut < |Leading(pa, pb, coin)|
    ensures cut + 1 <= |child| && child[..cut + 1] == Leading(pa, pb, coin)[..cut + 1]
    ensures var n := |Leading(pa, pb, coin)|;
            ValidTour(pa, n) && ValidTour(pb, n) ==> ValidTour(child, n)
  {
    var lead := Leading(pa, pb, coin);
    var trail := Trailing(pa, pb, coin);
    RecombineKeepsValidity(lead, trail, cut);
    AppendAbsent(lead[..cut + 1], trail)
  }

  lemma RecombineKeepsValidity(lead: Tour, trail: Tour, cut: int)
    requires 0 <= cut < |lead|
    ensures ValidTour(lead, |lead|) && ValidTour(trail, |lead|) ==>
              ValidTour(AppendAbsent(lead[..cut + 1], trail), |lead|)
  {
    if ValidTour(lead, |lead|) && ValidTour(trail, |lead|) {
      RecombineValid(lead, trail, cut, |lead|);
    }
  }

  lemma RecombineValid(lead: Tour, trail: Tour, cut: int, n: int)
    requires ValidTour(lead, n) && ValidTour(trail, n)
    requires 0 <= cut < n
    ensures ValidTour(AppendAbsent(lead[..cut + 1], trail), n)
  {
    var prefix := lead[..cut + 1];
    var child := AppendAbsent(prefix, trail);
    assert Distinct(prefix);
    forall x | x in prefix
      ensures x in lead
    {
      var i :| 0 <= i < |prefix| && prefix[i] == x;
      assert lead[i] == x;
    }
    PermByContents(child, n);
    assert child[0] == child[..cut + 1][0];
  }

  /** After the prefix, the child holds exactly the trailing parent's entries
      that are not in the prefix, in the trailing parent's order. */
  lemma RecombineShape(pa: Tour, pb: Tour, cut: int, coin: int)
    requires 0 <= cut < |Leading(pa, pb, coin)|
    requires Distinct(Trailing(pa, pb, coin))
    ensures var prefix := Leading(pa, pb, coin)[..cut + 1];
            Recombine(pa, pb, cut, coin) == prefix + Absent(Trailing(pa, pb, coin), prefix)
  {
    AppendAbsentIsFilter(Leading(pa, pb, coin)[..cut + 1], Trailing(pa, pb, coin));
  }

  /** Exchanges the entries at positions i and j; every other position keeps
      its entry. Away from position 0 it keeps a valid tour valid. */
  function Swap(t: Tour, i: int, j: int): (r: Tour)
    requires 0 <= i < |t| && 0 <= j < |t|
    ensures |r| == |t| && r[i] == t[j] && r[j] == t[i]
    ensures forall k :: 0 <= k < |t| && k != i && k != j ==> r[k] == t[k]
    ensures 1 <= i && 1 <= j && ValidTour(t, |t|) ==> ValidTour(r, |t|)
  {
    SwapKeepsValidity(t, i, j);
    t[i := t[j]][j := t[i]]
  }

  lemma SwapKeepsValidity(t: Tour, i: int, j: int)
    requires 0 <= i < |t| && 0 <= j < |t|
    ensures 1 <= i && 1 <= j && ValidTour(t, |t|) ==> ValidTour(t[i := t[j]][j := t[i]], |t|)
  {
    if 1 <= i && 1 <= j && ValidTour(t, |t|) {
      SwapValid(t, i, j);
    }
  }

  lemma SwapValid(t: Tour, i: int, j: int)
    requires 1 <= i < |t| && 1 <= j < |t|
    requires ValidTour(t, |t|)
    ensures ValidTour(t[i := t[j]][j := t[i]], |t|)
  {
    var r := t[i := t[j]][j := t[i]];
    forall a, b | 0 <= a < b < |r|
      ensures r[a] != r[b]
    {
      var a' := if a == i then j else if a == j then i else a;
      var b' := if b == i then j else if b == j then i else b;
      assert r[a] == t[a'] && r[b] == t[b'];
    }
    forall x
      ensures x in r <==> x in t
    {
      if x in r {
        var k :| 0 <= k < |r| && r[k] == x;
        var k' := if k == i then j else if k == j then i else k;
        assert t[k'] == x;
      }
      if x in t {
        var k :| 0 <= k < |t| && t[k] == x;
        var k' := if k == i then j else if k == j then i else k;
        assert r[k'] == x;
      }
    }
  }

  /** The mutation fires when its draw is at most the mutation chance,
      given as a whole percentage. */
  predicate MutationFires(draw: real, chancePercent: int) {
    draw <= chancePercent as real / 100.0
  }

  /** What breeding one child demands of its parents and draws: the
      crossover index fits the leading parent, and a firing mutation swaps
      positions of the child other than 0. */
  ghost predicate Breedable(pa: Tour, pb: Tour, d: ChildDraw, chancePercent: int) {
    && 0 <= d.cut < |Leading(pa, pb, d.coin)|
    && (MutationFires(d.mutation, chancePercent) ==>
          var c := Recombine(pa, pb, d.cut, d.coin);
          1 <= d.swapA < |c| && 1 <= d.swapB < |c|)
  }

  /** One child: crossover, then the swap mutation when it fires. */
  function Breed(pa: Tour, pb: Tour, d: ChildDraw, chancePercent: int): (child: Tour)
    requires Breedable(pa, pb, d, chancePercent)
    ensures var c := Recombine(pa, pb, d.cut, d.coin);
            && |child| == |c|
            && (forall k :: 0 <= k < |c| && (!MutationFires(d.mutation, chancePercent) || (k != d.swapA && k != d.swapB)) ==>
                  child[k] == c[k])
            && (MutationFires(d.mutation, chancePercent) ==> child[d.swapA] == c[d.swapB] && child[d.swapB] == c[d.swapA])
    ensures var n := |Leading(pa, pb, d.coin)|;
            ValidTour(pa, n) && ValidTour(pb, n) ==> ValidTour(child, n)
  {
    var c := Recombine(pa, pb, d.cut, d.coin);
    if MutationFires(d.mutation, chancePercent) then Swap(c, d.swapA, d.swapB) else c
  }

  /** Both parents of every pair exist in the population. */
  ghost predicate PairsInRange(selections: seq<Pair>, pop: Population) {
    forall k :: 0 <= k < |selections| ==>
      0 <= selections[k].first < |pop| && 0 <= selections[k].second < |pop|
  }

  /** What crossover demands: one child draw per pair, both parents of every
      pair in the population, crossover indices in 1..n-2 for n locations, and
      every pair breedable with its draw. */
  ghost predicate CrossoverReady(selections: seq<Pair>, n: int, draws: seq<ChildDraw>, pop: Population, chancePercent: int) {
    && |draws| == |selections|
    && PairsInRange(selections, pop)
    && (forall k :: 0 <= k < |draws| ==> 1 <= draws[k].cut <= n - 2)
    && (forall k :: 0 <= k < |selections| ==>
          Breedable(pop[selections[k].first], pop[selections[k].second], draws[k], chancePercent))
  }

  /** One child per selection pair, in pair order, bred from the current
      population, which is only read. Each crossover index is drawn from
      1..n-2 for n locations. */
  function Crossover(selections: seq<Pair>, n: int, draws: seq<ChildDraw>, pop: Population, chancePercent: int): (next: Population)
    requires CrossoverReady(selections, n, draws, pop, chancePercent)
    ensures |next| == |selections|
    ensures forall k :: 0 <= k < |selections| ==>
              next[k] == Breed(pop[selections[k].first], pop[selections[k].second], draws[k], chancePercent)
  {
    seq(|selections|, k requires 0 <= k < |selections| =>
          Breed(pop[selections[k].first], pop[selections[k].second], draws[k], chancePercent))
  }

  /** Valid parents of n locations admit every draw the program can make:
      a crossover index in 1..n-2 and swap positions in 1..n-1. */
  lemma BreedableFromValid(pa: Tour, pb: Tour, d: ChildDraw, chancePercent: int, n: int)
    requires ValidTour(pa, n) && ValidTour(pb, n)
    requires 1 <= d.cut <= n - 2
    requires 1 <= d.swapA < n && 1 <= d.swapB < n
    ensures Breedable(pa, pb, d, chancePercent)
  {
  }

  /** Crossover of a valid population yields valid children, one per pair. */
  lemma CrossoverPreservesValidity(selections: seq<Pair>, n: int, draws: seq<ChildDraw>, pop: Population, chancePercent: int)
    requires CrossoverReady(selections, n, draws, pop, chancePercent)
    requires ValidPopulation(pop, |pop|, n)
    ensures ValidPopulation(Crossover(selections, n, draws, pop, chancePercent), |selections|, n)
  {
  }
}
