/** Sums of a weight over a sequence, and how they react to point updates. */
module Sums {

  function Sum<T>(s: seq<T>, weight: T -> int): int {
    if s == [] then 0 else Sum(s[..|s| - 1], weight) + weight(s[|s| - 1])
  }

  lemma SumAppend<T>(s: seq<T>, x: T, weight: T -> int)
    ensures Sum(s + [x], weight) == Sum(s, weight) + weight(x)
  {
    assert (s + [x])[..|s|] == s;
  }

  lemma {:induction false} SumUpdate<T>(s: seq<T>, i: nat, x: T, weight: T -> int)
    requires i < |s|
    ensures Sum(s[i := x], weight) == Sum(s, weight) - weight(s[i]) + weight(x)
  {
    var n := |s| - 1;
    if i == n {
      assert s[i := x][..n] == s[..n];
    } else {
      assert s[i := x][..n] == s[..n][i := x];
      SumUpdate(s[..n], i, x, weight);
    }
  }

  lemma {:induction false} SumNonNegative<T>(s: seq<T>, weight: T -> int)
    requires forall x :: x in s ==> weight(x) >= 0
    ensures Sum(s, weight) >= 0
    ensures forall x :: x in s ==> weight(x) <= Sum(s, weight)
  {
    if s != [] {
      var n := |s| - 1;
      SumNonNegative(s[..n], weight);
      assert forall x :: x in s ==> x in s[..n] || x == s[n];
    }
  }
}
