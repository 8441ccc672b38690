/** Lists of distinct indices and how many fit below a bound. */
module Indices {
  predicate Distinct(s: seq<nat>) {
    forall a, b :: 0 <= a < b < |s| ==> s[a] != s[b]
  }

  // An ordering of all the indices below n, as np.argsort returns.
  predicate Permutes(s: seq<nat>, n: nat) {
    |s| == n && Distinct(s) && forall a :: 0 <= a < |s| ==> s[a] < n
  }

  ghost function Members(s: seq<nat>): (m: set<nat>)
    ensures forall a :: a in m <==> a in s
  {
    set a | 0 <= a < |s| :: s[a]
  }

  function UpTo(n: nat): (u: set<nat>)
    ensures |u| == n && forall j: nat :: j in u <==> j < n
  {
    if n == 0 then {} else UpTo(n - 1) + {n - 1}
  }

  lemma {:induction false} DistinctSize(s: seq<nat>)
    requires Distinct(s)
    ensures |Members(s)| == |s|
  {
    if s != [] {
      var init := s[..|s| - 1];
      DistinctSize(init);
      assert Members(s) == Members(init) + {s[|s| - 1]};
    }
  }

  lemma {:induction false} SubsetSize<T>(a: set<T>, b: set<T>)
    requires a <= b
    ensures |a| <= |b|
  {
    assert b == a + (b - a);
  }

  lemma {:induction false} AllInside(s: seq<nat>, n: nat, q: nat)
    requires Permutes(s, n) && q < n
    ensures q in s
  {
    DistinctSize(s);
    if q !in s {
      assert Members(s) <= UpTo(n) - {q};
      SubsetSize(Members(s), UpTo(n) - {q});
    }
  }
}
