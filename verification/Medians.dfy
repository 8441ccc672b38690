/** np.median over the reals. */
module Medians {
  // What it depends on, how it follows its data, and which value it is.

  import opened Arith

  lemma Tail<T>(s: seq<T>)
    requires s != []
    ensures multiset(s[1..]) == multiset(s) - multiset{s[0]}
    ensures multiset(s) == multiset(s[1..]) + multiset{s[0]}
  {
    assert s == [s[0]] + s[1..];
  }

  lemma Without<T>(t: seq<T>, j: nat)
    requires j < |t|
    ensures multiset(t[..j] + t[j + 1..]) == multiset(t) - multiset{t[j]}
  {
    assert t == t[..j] + [t[j]] + t[j + 1..];
  }

  // Taking the first element of one ordering of a bag out of another.
  lemma TakeOut<T>(s: seq<T>, t: seq<T>) returns (j: nat)
    requires multiset(s) == multiset(t) && s != []
    ensures j < |t| && t[j] == s[0]
    ensures multiset(s[1..]) == multiset(t[..j] + t[j + 1..])
    ensures |t[..j] + t[j + 1..]| == |s| - 1
  {
    Tail(s);
    assert s[0] in multiset(t);
    j :| 0 <= j < |t| && t[j] == s[0];
    Without(t, j);
    assert |multiset(t[..j] + t[j + 1..])| == |multiset(s[1..])|;
  }

  function Insert(x: real, s: seq<real>): (t: seq<real>)
    ensures |t| == |s| + 1
  {
    if s == [] || x <= s[0] then [x] + s else [s[0]] + Insert(x, s[1..])
  }

  function Sort(s: seq<real>): (t: seq<real>)
    ensures |t| == |s|
  {
    if s == [] then [] else Insert(s[0], Sort(s[1..]))
  }

  function Median(s: seq<real>): real
    requires s != []
  {
    var t := Sort(s);
    var h := |t| / 2;
    if |t| % 2 == 1 then t[h] else (t[h - 1] + t[h]) / 2.0
  }

  lemma {:induction false} InsertAscends(x: real, s: seq<real>)
    requires Ascending(s)
    ensures Ascending(Insert(x, s))
    ensures forall j :: 0 <= j <= |s| ==> Insert(x, s)[j] >= if s == [] || x <= s[0] then x else s[0]
  {
    if s != [] && x > s[0] {
      InsertAscends(x, s[1..]);
    }
  }

  lemma {:induction false} InsertKeeps(x: real, s: seq<real>)
    ensures multiset(Insert(x, s)) == multiset(s) + multiset{x}
  {
    if s != [] && x > s[0] {
      InsertKeeps(x, s[1..]);
      Tail(s);
    }
  }

  lemma {:induction false} SortSorts(s: seq<real>)
    ensures Ascending(Sort(s)) && multiset(Sort(s)) == multiset(s)
  {
    if s != [] {
      SortSorts(s[1..]);
      InsertAscends(s[0], Sort(s[1..]));
      InsertKeeps(s[0], Sort(s[1..]));
      Tail(s);
    }
  }

  lemma FirstIsLeast(s: seq<real>, x: real)
    requires Ascending(s) && x in multiset(s)
    ensures s[0] <= x
  {
    var i :| 0 <= i < |s| && s[i] == x;
  }

  lemma SameFirst(s: seq<real>, t: seq<real>)
    requires Ascending(s) && Ascending(t) && multiset(s) == multiset(t) && s != []
    ensures t != [] && s[0] == t[0] && multiset(s[1..]) == multiset(t[1..])
  {
    assert s[0] in multiset(t);
    assert t[0] in multiset(s);
    FirstIsLeast(t, s[0]);
    FirstIsLeast(s, t[0]);
    Tail(s);
    Tail(t);
  }

  lemma {:induction false} AscendingIsUnique(s: seq<real>, t: seq<real>)
    requires Ascending(s) && Ascending(t) && multiset(s) == multiset(t)
    ensures s == t
  {
    if s == [] {
      assert |multiset(t)| == 0;
    } else {
      SameFirst(s, t);
      AscendingIsUnique(s[1..], t[1..]);
      assert s == [s[0]] + s[1..] && t == [t[0]] + t[1..];
    }
  }

  // The median does not depend on the order of the data.
  lemma MedianOfBag(s: seq<real>, t: seq<real>)
    requires multiset(s) == multiset(t) && s != []
    ensures t != [] && Median(s) == Median(t)
  {
    SortSorts(s);
    SortSorts(t);
    AscendingIsUnique(Sort(s), Sort(t));
  }

  // ---- changing units: x becomes k * x + c ----

  function Scale(k: real, c: real, x: real): real {
    k * x + c
  }

  function Scaled(k: real, c: real, s: seq<real>): (t: seq<real>)
    ensures |t| == |s|
    ensures forall i :: 0 <= i < |s| ==> t[i] == Scale(k, c, s[i])
  {
    seq(|s|, i requires 0 <= i < |s| => Scale(k, c, s[i]))
  }

  lemma ScaleKeepsOrder(k: real, c: real, x: real, y: real)
    requires k > 0.0
    ensures x <= y <==> Scale(k, c, x) <= Scale(k, c, y)
  {
    if x < y {
      assert k * (y - x) > 0.0;
    } else if y < x {
      assert k * (x - y) > 0.0;
    }
  }

  lemma ScaledTail(k: real, c: real, s: seq<real>)
    requires s != []
    ensures Scaled(k, c, s)[0] == Scale(k, c, s[0]) && Scaled(k, c, s)[1..] == Scaled(k, c, s[1..])
    ensures Scaled(k, c, s) == [Scale(k, c, s[0])] + Scaled(k, c, s[1..])
  {
  }

  lemma {:induction false} InsertScales(k: real, c: real, x: real, s: seq<real>)
    requires k > 0.0
    ensures Insert(Scale(k, c, x), Scaled(k, c, s)) == Scaled(k, c, Insert(x, s))
  {
    ScaledTail(k, c, Insert(x, s));
    if s == [] || x <= s[0] {
      assert ([x] + s)[1..] == s;
      if s != [] {
        ScaleKeepsOrder(k, c, x, s[0]);
      }
    } else {
      ScaleKeepsOrder(k, c, x, s[0]);
      ScaledTail(k, c, s);
      InsertScales(k, c, x, s[1..]);
    }
  }

  lemma {:induction false} SortScales(k: real, c: real, s: seq<real>)
    requires k > 0.0
    ensures Sort(Scaled(k, c, s)) == Scaled(k, c, Sort(s))
  {
    if s != [] {
      ScaledTail(k, c, s);
      SortScales(k, c, s[1..]);
      InsertScales(k, c, s[0], Sort(s[1..]));
    }
  }

  lemma MiddleScales(k: real, c: real, a: real, b: real)
    ensures (Scale(k, c, a) + Scale(k, c, b)) / 2.0 == Scale(k, c, (a + b) / 2.0)
  {
    assert k * a + k * b == k * (a + b);
  }

  // The median moves with the units.
  lemma MedianScales(k: real, c: real, s: seq<real>)
    requires k > 0.0 && s != []
    ensures Median(Scaled(k, c, s)) == Scale(k, c, Median(s))
  {
    var t := Sort(s);
    var h := |t| / 2;
    SortScales(k, c, s);
    if |t| % 2 == 0 {
      MiddleScales(k, c, t[h - 1], t[h]);
    }
  }

  // ---- the median by counting ----

  function AtOrBelow(s: seq<real>, x: real): (n: nat)
    ensures n <= |s|
  {
    if s == [] then 0 else (if s[0] <= x then 1 else 0) + AtOrBelow(s[1..], x)
  }

  function AtOrAbove(s: seq<real>, x: real): (n: nat)
    ensures n <= |s|
  {
    if s == [] then 0 else (if s[0] >= x then 1 else 0) + AtOrAbove(s[1..], x)
  }

  // x is a member of s with at least k members up to it and all but k - 1 from it on.
  ghost predicate Kth(s: seq<real>, k: nat, x: real) {
    x in s && AtOrBelow(s, x) >= k && AtOrAbove(s, x) >= |s| + 1 - k
  }

  lemma {:induction false} InsertCounts(x: real, s: seq<real>, y: real)
    ensures AtOrBelow(Insert(x, s), y) == AtOrBelow([x] + s, y)
    ensures AtOrAbove(Insert(x, s), y) == AtOrAbove([x] + s, y)
  {
    assert ([x] + s)[1..] == s;
    if s != [] && x > s[0] {
      InsertCounts(x, s[1..], y);
      assert ([x] + s[1..])[1..] == s[1..];
      assert Insert(x, s)[1..] == Insert(x, s[1..]);
    }
  }

  lemma {:induction false} SortCounts(s: seq<real>, y: real)
    ensures AtOrBelow(Sort(s), y) == AtOrBelow(s, y) && AtOrAbove(Sort(s), y) == AtOrAbove(s, y)
  {
    if s != [] {
      SortCounts(s[1..], y);
      InsertCounts(s[0], Sort(s[1..]), y);
      assert ([s[0]] + Sort(s[1..]))[1..] == Sort(s[1..]);
    }
  }

  // In ascending order at least i + 1 members are at or below the one in place i.
  lemma {:induction false} PlaceCounts(t: seq<real>, i: nat, x: real)
    requires Ascending(t) && i < |t|
    ensures t[i] <= x ==> AtOrBelow(t, x) >= i + 1
    ensures t[i] > x ==> AtOrBelow(t, x) <= i
    ensures t[i] >= x ==> AtOrAbove(t, x) >= |t| - i
    ensures t[i] < x ==> AtOrAbove(t, x) < |t| - i
  {
    if i > 0 {
      PlaceCounts(t[1..], i - 1, x);
    } else {
      AllCounted(t, x);
    }
  }

  lemma {:induction false} AllCounted(t: seq<real>, x: real)
    requires Ascending(t) && t != []
    ensures t[0] > x ==> AtOrBelow(t, x) == 0
    ensures t[0] >= x ==> AtOrAbove(t, x) == |t|
  {
    if |t| > 1 {
      AllCounted(t[1..], x);
    }
  }

  lemma {:induction false} SortedAtIsKth(s: seq<real>, k: nat, x: real)
    requires 1 <= k <= |s|
    ensures x == Sort(s)[k - 1] <==> Kth(s, k, x)
  {
    var t := Sort(s);
    SortSorts(s);
    SortCounts(s, x);
    PlaceCounts(t, k - 1, x);
    assert t[k - 1] in multiset(t);
  }

  // There is only one k-th value.
  lemma KthIsUnique(s: seq<real>, k: nat, x: real, y: real)
    requires 1 <= k <= |s| && Kth(s, k, x) && Kth(s, k, y)
    ensures x == y
  {
    SortedAtIsKth(s, k, x);
    SortedAtIsKth(s, k, y);
  }

  // The median is the mean of the two values in the middle, which are one and the same for an odd number.
  lemma MedianIsMiddle(s: seq<real>) returns (low: real, high: real)
    requires s != []
    ensures Kth(s, (|s| + 1) / 2, low) && Kth(s, |s| / 2 + 1, high)
    ensures low == high || (|s| % 2 == 0 && low < high && forall i :: 0 <= i < |s| ==> !(low < s[i] < high))
    ensures Median(s) == (low + high) / 2.0
  {
    var t, h := Sort(s), |s| / 2;
    SortSorts(s);
    high := t[h];
    SortedAtIsKth(s, h + 1, high);
    if |s| % 2 == 1 {
      low := high;
    } else {
      low := t[h - 1];
      SortedAtIsKth(s, h, low);
      NoneBetween(s, t, h);
    }
  }

  // At least half of the values are at or below the median and at least half at or above it.
  lemma MedianHalves(s: seq<real>)
    requires s != []
    ensures 2 * AtOrBelow(s, Median(s)) >= |s| && 2 * AtOrAbove(s, Median(s)) >= |s|
  {
    var low, high := MedianIsMiddle(s);
    CountsGrow(s, low, Median(s));
    CountsGrow(s, Median(s), high);
  }

  lemma {:induction false} CountsGrow(s: seq<real>, x: real, y: real)
    requires x <= y
    ensures AtOrBelow(s, x) <= AtOrBelow(s, y) && AtOrAbove(s, x) >= AtOrAbove(s, y)
  {
    if s != [] {
      CountsGrow(s[1..], x, y);
    }
  }

  lemma NoneBetween(s: seq<real>, t: seq<real>, h: nat)
    requires Ascending(t) && multiset(s) == multiset(t) && 1 <= h < |t|
    ensures forall i :: 0 <= i < |s| ==> !(t[h - 1] < s[i] < t[h])
  {
    forall i | 0 <= i < |s|
      ensures !(t[h - 1] < s[i] < t[h])
    {
      assert s[i] in multiset(t);
      var j :| 0 <= j < |t| && t[j] == s[i];
      assert j <= h - 1 || h <= j;
    }
  }

  // ---- turning the values round ----

  lemma {:induction false} NegatedCounts(s: seq<real>, x: real)
    ensures AtOrBelow(Scaled(-1.0, 0.0, s), -x) == AtOrAbove(s, x)
    ensures AtOrAbove(Scaled(-1.0, 0.0, s), -x) == AtOrBelow(s, x)
  {
    if s != [] {
      ScaledTail(-1.0, 0.0, s);
      NegatedCounts(s[1..], x);
    }
  }

  lemma NegatedKth(s: seq<real>, n: seq<real>, k: nat, k': nat, x: real, y: real)
    requires k + k' == |s| + 1 && 1 <= k <= |s| && n == Scaled(-1.0, 0.0, s)
    requires Kth(s, k, x) && Kth(n, k', y)
    ensures y == -x
  {
    NegatedCounts(s, x);
    var i :| 0 <= i < |s| && s[i] == x;
    assert n[i] == -x;
    KthIsUnique(n, k', y, -x);
  }

  lemma MedianNegates(s: seq<real>)
    requires s != []
    ensures Median(Scaled(-1.0, 0.0, s)) == -Median(s)
  {
    var n := Scaled(-1.0, 0.0, s);
    var low, high := MedianIsMiddle(s);
    var nlow, nhigh := MedianIsMiddle(n);
    NegatedKth(s, n, (|s| + 1) / 2, |s| / 2 + 1, low, nhigh);
    NegatedKth(s, n, |s| / 2 + 1, (|s| + 1) / 2, high, nlow);
  }

  lemma ScaledTwice(k: real, c: real, s: seq<real>)
    ensures Scaled(-1.0, 0.0, Scaled(k, c, s)) == Scaled(-k, -c, s)
  {
    forall i | 0 <= i < |s|
      ensures Scale(-1.0, 0.0, Scale(k, c, s[i])) == Scale(-k, -c, s[i])
    {
      assert k * s[i] == -(-k * s[i]);
    }
  }

  // The median moves with any change of units, also one that turns the values round.
  lemma {:induction false} MedianFollowsUnits(k: real, c: real, s: seq<real>)
    requires s != []
    ensures Median(Scaled(k, c, s)) == Scale(k, c, Median(s))
  {
    if k > 0.0 {
      MedianScales(k, c, s);
    } else if k < 0.0 {
      MedianScales(-k, -c, s);
      MedianNegates(Scaled(-k, -c, s));
      ScaledTwice(-k, -c, s);
    } else {
      var low, high := MedianIsMiddle(Scaled(k, c, s));
    }
  }

  // ---- absolute deviations ----

  function Abs(x: real): real {
    if x >= 0.0 then x else -x
  }

  function Deviations(s: seq<real>, m: real): (d: seq<real>)
    ensures |d| == |s|
    ensures forall i :: 0 <= i < |s| ==> d[i] == Abs(s[i] - m)
  {
    seq(|s|, i requires 0 <= i < |s| => Abs(s[i] - m))
  }

  lemma {:induction false} DeviationsOfBag(s: seq<real>, t: seq<real>, m: real)
    requires multiset(s) == multiset(t)
    ensures multiset(Deviations(s, m)) == multiset(Deviations(t, m))
  {
    if s == [] {
      assert |multiset(t)| == 0;
      assert t == [];
    } else {
      var j := TakeOut(s, t);
      var rest := t[..j] + t[j + 1..];
      DeviationsOfBag(s[1..], rest, m);
      assert Deviations(s, m) == [Abs(s[0] - m)] + Deviations(s[1..], m);
      assert Deviations(rest, m) == Deviations(t[..j], m) + Deviations(t[j + 1..], m);
      assert Deviations(t, m) == Deviations(t[..j], m) + [Abs(t[j] - m)] + Deviations(t[j + 1..], m);
    }
  }

  lemma DeviationScales(k: real, c: real, x: real, m: real)
    requires k > 0.0
    ensures Abs(Scale(k, c, x) - Scale(k, c, m)) == Scale(k, 0.0, Abs(x - m))
  {
    ScaleKeepsOrder(k, c, m, x);
    assert k * (x - m) == k * x - k * m;
    assert k * -(x - m) == -(k * (x - m));
  }

  lemma DeviationsScale(k: real, c: real, s: seq<real>, m: real)
    requires k > 0.0
    ensures Deviations(Scaled(k, c, s), Scale(k, c, m)) == Scaled(k, 0.0, Deviations(s, m))
  {
    forall i | 0 <= i < |s|
      ensures Deviations(Scaled(k, c, s), Scale(k, c, m))[i] == Scaled(k, 0.0, Deviations(s, m))[i]
    {
      DeviationScales(k, c, s[i], m);
    }
  }
}
