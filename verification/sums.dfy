/** Real-valued totals, added left to right as `std::accumulate` does. */
module Sums {

  function Sum(s: seq<real>): real
    decreases |s|
  {
    if |s| == 0 then 0.0 else Sum(s[..|s| - 1]) + s[|s| - 1]
  }

  /** Running total s[0] + ... + s[i]. */
  function Prefix(s: seq<real>, i: int): real
    requires 0 <= i < |s|
  {
    Sum(s[..i + 1])
  }

  lemma PrefixStep(s: seq<real>, i: int)
    requires 0 <= i < |s| - 1
    ensures Prefix(s, i + 1) == Prefix(s, i) + s[i + 1]
  {
    assert s[..i + 2][..i + 1] == s[..i + 1];
  }

  lemma PrefixLast(s: seq<real>)
    requires 0 < |s|
    ensures Prefix(s, |s| - 1) == Sum(s)
  {
    assert s[..|s|] == s;
  }

  /** Adding the first element separately gives the same total. */
  lemma {:induction false} SumCons(x: real, s: seq<real>)
    ensures Sum([x] + s) == x + Sum(s)
    decreases |s|
  {
    if |s| > 0 {
      var init := s[..|s| - 1];
      assert ([x] + s)[..|s|] == [x] + init;
      SumCons(x, init);
    }
  }

  /** A non-empty sequence of positive values has a positive total. */
  lemma {:induction false} SumPositive(s: seq<real>)
    requires 0 < |s|
    requires forall i :: 0 <= i < |s| ==> 0.0 < s[i]
    ensures 0.0 < Sum(s)
    decreases |s|
  {
    if |s| > 1 {
      SumPositive(s[..|s| - 1]);
    }
  }
}
