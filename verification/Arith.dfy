/** Order, and order and division facts about products, shared by the numeric modules. */
module Arith {
  predicate Ascending(s: seq<real>) {
    forall i, j :: 0 <= i < j < |s| ==> s[i] <= s[j]
  }

  function Max(a: real, b: real): real {
    if a >= b then a else b
  }

  function Min(a: real, b: real): real {
    if a <= b then a else b
  }

  function AtMost(a: nat, b: nat): nat {
    if a <= b then a else b
  }

  lemma MulOrder(a: real, b: real, k: real)
    requires k > 0.0
    ensures a < b <==> a * k < b * k
    ensures a <= b <==> a * k <= b * k
  {
  }

  lemma BoundsScaled(e: real, z: real, low: real, high: real, k: real)
    requires k > 0.0 && z == e * k
    ensures low <= e <= high <==> low * k <= z <= high * k
    ensures low < e < high <==> low * k < z < high * k
  {
    MulOrder(low, e, k);
    MulOrder(e, high, k);
  }

  lemma MulNonNegative(a: int, b: int)
    requires a >= 0 && b >= 0
    ensures a * b >= 0
  {
  }

  lemma MulMonotone(a: int, b: int, k: int)
    requires a <= b && k >= 0
    ensures a * k <= b * k
  {
    MulNonNegative(b - a, k);
    assert (b - a) * k == b * k - a * k;
  }

  lemma MulIncludesOne(q: int, m: int)
    requires m > 0
    ensures q >= 1 ==> q * m >= m
    ensures q <= -1 ==> q * m <= -m
  {
    if q >= 1 {
      MulMonotone(1, q, m);
    } else if q <= -1 {
      MulMonotone(q, -1, m);
    }
  }

  lemma DivTimes(a: real, d: real)
    requires d != 0.0
    ensures a / d * d == a
  {
  }

  // Quotient and remainder are unique.
  lemma DivModUnique(x: int, m: int, q: int, t: int)
    requires m > 0 && 0 <= t < m && x == q * m + t
    ensures x / m == q && x % m == t
  {
    var d := x / m - q;
    assert d * m == x / m * m - q * m;
    MulIncludesOne(d, m);
  }
}
