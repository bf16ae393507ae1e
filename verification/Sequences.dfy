/** Sequences of numbers: the facts the containers and the service share. */
module Sequences {

  /** The numbers below n. */
  function Ids(n: nat): seq<int> { seq(n, i => i) }

  lemma {:induction false} IdsDistinct(n: nat, x: int)
    ensures multiset(Ids(n))[x] == (if 0 <= x < n then 1 else 0)
  {
    if n > 0 {
      IdsDistinct(n - 1, x);
      assert Ids(n) == Ids(n - 1) + [n - 1];
    }
  }

  ghost predicate Increasing(s: seq<int>) { forall i, j :: 0 <= i < j < |s| ==> s[i] < s[j] }

  function InsertAt(s: seq<int>, p: nat, x: int): seq<int>
    requires p <= |s|
  {
    s[..p] + [x] + s[p..]
  }

  function RemoveAt(s: seq<int>, p: nat): seq<int>
    requires p < |s|
  {
    s[..p] + s[p + 1..]
  }
}
