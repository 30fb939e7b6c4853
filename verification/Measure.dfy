/** Progress measures: the summed weight of the participants of a run. */
module Measure {

  function Total<T>(weight: T -> nat, s: seq<T>): nat {
    if s == [] then 0 else weight(s[0]) + Total(weight, s[1..])
  }

  lemma {:induction false} TotalUpdate<T>(weight: T -> nat, s: seq<T>, i: nat, x: T)
    requires i < |s|
    ensures Total(weight, s[i := x]) + weight(s[i]) == Total(weight, s) + weight(x)
  {
    if i == 0 {
      assert s[i := x][1..] == s[1..];
    } else {
      assert s[i := x][1..] == s[1..][i - 1 := x];
      TotalUpdate(weight, s[1..], i - 1, x);
    }
  }

  lemma {:induction false} TotalBound<T>(weight: T -> nat, s: seq<T>, most: nat)
    requires forall i :: 0 <= i < |s| ==> weight(s[i]) <= most
    ensures Total(weight, s) <= most * |s|
  {
    if s != [] {
      TotalBound(weight, s[1..], most);
    }
  }
}
