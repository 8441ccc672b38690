/** scripts/diag/spatial.py: benjamini_hochberg. */
module BenjaminiHochberg {
  // Step-up false-discovery-rate selection. The sorting order is a parameter: any permutation that sorts
  // the p-values, however it places ties.

  import opened Arith
  import opened Indices

  // np.argsort
  ghost predicate Sorts(order: seq<nat>, p: seq<real>) {
    Permutes(order, |p|) && forall a, b :: 0 <= a < b < |p| ==> p[order[a]] <= p[order[b]]
  }

  // (1 .. n) / n * alpha
  function Thresholds(n: nat, alpha: real): (t: seq<real>)
    ensures |t| == n
  {
    seq(n, k requires 0 <= k < n => (k + 1) as real / n as real * alpha)
  }

  // The k-th threshold is k n-ths of the rate.
  lemma ThresholdShares(n: nat, alpha: real, k: nat)
    requires 1 <= k <= n
    ensures Thresholds(n, alpha)[k - 1] * n as real == k as real * alpha
  {
    var share := k as real / n as real;
    DivTimes(k as real, n as real);
    assert share * alpha * n as real == share * n as real * alpha;
  }

  // Thresholds no p-value is within, or that grow with the rank.
  ghost predicate Regular(p: seq<real>, t: seq<real>) {
    |t| == |p| && (Ascending(t) || forall i, k :: 0 <= i < |p| && 0 <= k < |t| ==> p[i] > t[k])
  }

  // Rates and p-values are not negative; NegativeRateReadsTies is about the case when both are.
  ghost predicate Sound(p: seq<real>, alpha: real) {
    alpha >= 0.0 || forall i :: 0 <= i < |p| ==> p[i] >= 0.0
  }

  lemma Products(a: real, b: real, x: real, y: real)
    requires 0.0 <= a <= b && 0.0 <= x <= y
    ensures a * x <= b * y
  {
    assert b * y - a * x == (b - a) * y + a * (y - x);
  }

  lemma Fractions(a: nat, b: nat, n: nat)
    requires n > 0 && a <= b
    ensures 0.0 <= a as real / n as real <= b as real / n as real
  {
  }

  lemma ThresholdsGrow(n: nat, alpha: real, beta: real, a: nat, b: nat)
    requires a <= b < n && 0.0 <= alpha <= beta
    ensures Thresholds(n, alpha)[a] <= Thresholds(n, beta)[b]
  {
    Fractions(a + 1, b + 1, n);
    Products((a + 1) as real / n as real, (b + 1) as real / n as real, alpha, beta);
  }

  lemma ThresholdsRegular(p: seq<real>, alpha: real)
    requires Sound(p, alpha)
    ensures Regular(p, Thresholds(|p|, alpha))
    ensures alpha >= 0.0 ==> Ascending(Thresholds(|p|, alpha))
  {
    var t := Thresholds(|p|, alpha);
    if alpha >= 0.0 {
      forall a, b | 0 <= a <= b < |t|
        ensures t[a] <= t[b]
      {
        ThresholdsGrow(|p|, alpha, alpha, a, b);
      }
    } else {
      forall k | 0 <= k < |t|
        ensures t[k] < 0.0
      {
        MulOrder(alpha, 0.0, (k + 1) as real / |p| as real);
      }
    }
  }

  lemma ThresholdsRise(n: nat, alpha: real, beta: real)
    requires 0.0 <= alpha <= beta
    ensures forall j :: 0 <= j < n ==> Thresholds(n, alpha)[j] <= Thresholds(n, beta)[j]
  {
    forall j | 0 <= j < n
      ensures Thresholds(n, alpha)[j] <= Thresholds(n, beta)[j]
    {
      ThresholdsGrow(n, alpha, beta, j, j);
    }
  }

  // ---- the definition, without sorting ----

  ghost function Under(p: seq<real>, t: real): set<nat> {
    set i: nat | i < |p| && p[i] <= t
  }

  // The step-up test: at least k of the p-values are within the k-th threshold.
  ghost predicate Passes(p: seq<real>, t: seq<real>, k: nat)
    requires |t| == |p|
  {
    0 < k <= |p| && |Under(p, t[k - 1])| >= k
  }

  // The largest k that passes, 0 if none does.
  ghost function Steps(p: seq<real>, t: seq<real>, upTo: nat): (k: nat)
    requires |t| == |p|
    ensures k <= upTo && (k > 0 ==> Passes(p, t, k))
    ensures forall j :: k < j <= upTo ==> !Passes(p, t, j)
  {
    if upTo == 0 || Passes(p, t, upTo) then upTo else Steps(p, t, upTo - 1)
  }

  ghost predicate Rejected(p: seq<real>, t: seq<real>, i: nat)
    requires |t| == |p| && i < |p|
  {
    var k := Steps(p, t, |p|);
    k > 0 && p[i] <= t[k - 1]
  }

  // ---- the sorted form ----

  // How many are marked: the largest rank whose p-value is within its threshold.
  ghost function Marks(p: seq<real>, t: seq<real>, order: seq<nat>, upTo: nat): (k: nat)
    requires Sorts(order, p) && |t| == |p| && upTo <= |p|
    ensures k <= upTo && (k > 0 ==> p[order[k - 1]] <= t[k - 1])
    ensures forall j :: k <= j < upTo ==> p[order[j]] > t[j]
  {
    if upTo == 0 || p[order[upTo - 1]] <= t[upTo - 1] then upTo else Marks(p, t, order, upTo - 1)
  }

  method BenjaminiHochberg(p: seq<real>, alpha: real, order: seq<nat>) returns (significant: array<bool>)
    requires Sorts(order, p)
    ensures fresh(significant) && significant.Length == |p|
    ensures var t := Thresholds(|p|, alpha);
            forall i :: 0 <= i < |p| ==> (significant[i] <==> i in order[..Marks(p, t, order, |p|)])
    ensures Sound(p, alpha) ==> forall i :: 0 <= i < |p| ==> significant[i] == Rejected(p, Thresholds(|p|, alpha), i)
  {
    var thresh := Thresholds(|p|, alpha);
    if Sound(p, alpha) {
      ThresholdsRegular(p, alpha);
    }
    significant := StepUp(p, thresh, order);
  }

  method StepUp(p: seq<real>, thresh: seq<real>, order: seq<nat>) returns (significant: array<bool>)
    requires Sorts(order, p) && |thresh| == |p|
    ensures fresh(significant) && significant.Length == |p|
    ensures forall i :: 0 <= i < |p| ==> (significant[i] <==> i in order[..Marks(p, thresh, order, |p|)])
    ensures Regular(p, thresh) ==> forall i :: 0 <= i < |p| ==> significant[i] == Rejected(p, thresh, i)
  {
    var n := |p|;
    var below := seq(n, k requires 0 <= k < n => p[order[k]] <= thresh[k]);
    var marked := 0;
    for k := 0 to n
      invariant marked == Marks(p, thresh, order, k)
    {
      if below[k] {
        marked := k + 1;
      }
    }
    significant := MarkFirst(order[..marked], n);
    if Regular(p, thresh) {
      AllMarkedAreRejected(p, thresh, order);
    }
  }

  // significant[first] = True, in an array of False
  method MarkFirst(first: seq<nat>, n: nat) returns (significant: array<bool>)
    requires forall k :: 0 <= k < |first| ==> first[k] < n
    ensures fresh(significant) && significant.Length == n
    ensures forall i :: 0 <= i < n ==> (significant[i] <==> i in first)
  {
    significant := new bool[n](_ => false);
    for k := 0 to |first|
      invariant forall i :: 0 <= i < n ==> (significant[i] <==> i in first[..k])
    {
      significant[first[k]] := true;
      assert first[..k + 1] == first[..k] + [first[k]];
    }
    assert first[..|first|] == first;
  }

  lemma AllMarkedAreRejected(p: seq<real>, t: seq<real>, order: seq<nat>)
    requires Sorts(order, p) && Regular(p, t)
    ensures forall i :: 0 <= i < |p| ==> (i in order[..Marks(p, t, order, |p|)] <==> Rejected(p, t, i))
  {
    forall i | 0 <= i < |p|
      ensures i in order[..Marks(p, t, order, |p|)] <==> Rejected(p, t, i)
    {
      MarkedIsRejected(p, t, order, i);
    }
  }

  // The k-th smallest is within x exactly when at least k values are.
  lemma {:induction false} KthWithin(p: seq<real>, order: seq<nat>, k: nat, x: real)
    requires Sorts(order, p) && 0 < k <= |p|
    ensures p[order[k - 1]] <= x <==> |Under(p, x)| >= k
  {
    if p[order[k - 1]] <= x {
      DistinctSize(order[..k]);
      SubsetSize(Members(order[..k]), Under(p, x));
    } else {
      UnderIsEarly(p, order, k - 1, x);
      DistinctSize(order[..k - 1]);
      SubsetSize(Under(p, x), Members(order[..k - 1]));
    }
  }

  lemma {:induction false} UnderIsEarly(p: seq<real>, order: seq<nat>, k: nat, x: real)
    requires Sorts(order, p) && k < |p| && p[order[k]] > x
    ensures Under(p, x) <= Members(order[..k])
  {
    forall i | i in Under(p, x)
      ensures i in order[..k]
    {
      AllInside(order, |p|, i);
      var a :| 0 <= a < |order| && order[a] == i;
      assert a < k && order[..k][a] == i;
    }
  }

  // So both forms stop at the same rank.
  lemma {:induction false} SameRank(p: seq<real>, t: seq<real>, order: seq<nat>, upTo: nat)
    requires Sorts(order, p) && |t| == |p| && upTo <= |p|
    ensures Marks(p, t, order, upTo) == Steps(p, t, upTo)
  {
    if upTo > 0 {
      KthWithin(p, order, upTo, t[upTo - 1]);
      SameRank(p, t, order, upTo - 1);
    }
  }

  lemma {:induction false} MarkedIsRejected(p: seq<real>, t: seq<real>, order: seq<nat>, i: nat)
    requires Sorts(order, p) && Regular(p, t) && i < |p|
    ensures i in order[..Marks(p, t, order, |p|)] <==> Rejected(p, t, i)
  {
    var k := Marks(p, t, order, |p|);
    SameRank(p, t, order, |p|);
    AllInside(order, |p|, i);
    var m :| 0 <= m < |order| && order[m] == i;
    MarkedByPlace(order, k, m);
    assert m < k ==> p[i] <= p[order[k - 1]];
    assert m >= k > 0 && Ascending(t) ==> t[k - 1] <= t[m] < p[i];
  }

  lemma MarkedByPlace(order: seq<nat>, k: nat, m: nat)
    requires Distinct(order) && k <= |order| && m < |order|
    ensures order[m] in order[..k] <==> m < k
  {
    assert forall a :: 0 <= a < k && order[..k][a] == order[m] ==> a == m;
    assert m < k ==> order[..k][m] == order[m];
  }

  // Rejected is exactly: no larger than the largest p(k) with p(k) <= k * alpha / n.
  lemma {:induction false} RejectedIsUpToLargest(p: seq<real>, t: seq<real>, order: seq<nat>, i: nat)
    requires Sorts(order, p) && Regular(p, t) && i < |p|
    ensures Rejected(p, t, i) <==> exists k :: 0 <= k < |p| && p[order[k]] <= t[k] && p[i] <= p[order[k]]
  {
    var k := Marks(p, t, order, |p|);
    SameRank(p, t, order, |p|);
    if k > 0 && p[i] <= t[k - 1] {
      MarkedIsRejected(p, t, order, i);
      var m :| 0 <= m < k && order[..k][m] == i;
      assert p[i] <= p[order[k - 1]];
    }
    if j :| 0 <= j < |p| && p[order[j]] <= t[j] && p[i] <= p[order[j]] {
      assert j <= k - 1 && p[order[j]] <= p[order[k - 1]];
    }
  }

  // Exactly as many are rejected as the rank the step-up stopped at.
  lemma {:induction false} RejectionsCounted(p: seq<real>, t: seq<real>)
    requires |t| == |p| && Ascending(t) && Steps(p, t, |p|) > 0
    ensures |Under(p, t[Steps(p, t, |p|) - 1])| == Steps(p, t, |p|)
  {
    var k := Steps(p, t, |p|);
    SubsetSize(Under(p, t[k - 1]), UpTo(|p|));
    if k < |p| {
      SubsetSize(Under(p, t[k - 1]), Under(p, t[k]));
      assert !Passes(p, t, k + 1);
    }
  }

  // Laxer thresholds and lower p-values never lose a rejection.
  lemma {:induction false} Laxer(p: seq<real>, t: seq<real>, q: seq<real>, u: seq<real>, i: nat)
    requires |t| == |p| == |q| == |u| && i < |p|
    requires forall j :: 0 <= j < |p| ==> q[j] <= p[j] && t[j] <= u[j]
    requires Ascending(u) && Rejected(p, t, i)
    ensures Rejected(q, u, i)
  {
    var k := Steps(p, t, |p|);
    SubsetSize(Under(p, t[k - 1]), Under(q, u[k - 1]));
    assert Passes(q, u, k);
    assert t[k - 1] <= u[k - 1] <= u[Steps(q, u, |p|) - 1];
  }

  // A higher rate and lower p-values never lose a rejection.
  lemma {:induction false} Monotone(p: seq<real>, alpha: real, q: seq<real>, beta: real, i: nat)
    requires Sound(p, alpha) && alpha <= beta && |p| == |q| && i < |p|
    requires forall j :: 0 <= j < |p| ==> q[j] <= p[j]
    requires Rejected(p, Thresholds(|p|, alpha), i)
    ensures Rejected(q, Thresholds(|p|, beta), i)
  {
    ThresholdsRegular(p, alpha);
    if alpha >= 0.0 {
      ThresholdsRegular(q, beta);
      ThresholdsRise(|p|, alpha, beta);
      Laxer(p, Thresholds(|p|, alpha), q, Thresholds(|p|, beta), i);
    } else {
      NegativeRateRejectsNone(p, alpha, i);
    }
  }

  lemma NegativeRateRejectsNone(p: seq<real>, alpha: real, i: nat)
    requires Sound(p, alpha) && alpha < 0.0 && i < |p|
    ensures !Rejected(p, Thresholds(|p|, alpha), i)
  {
    var k := Steps(p, Thresholds(|p|, alpha), |p|);
    if k > 0 {
      MulOrder(alpha, 0.0, k as real / |p| as real);
    }
  }

  // Every sorting order marks the same points, exactly when no tie straddles the last marked rank.
  lemma {:induction false} OrderMattersOnlyAcrossTies(p: seq<real>, t: seq<real>, order: seq<nat>)
    requires Sorts(order, p) && |t| == |p|
    ensures var k := Marks(p, t, order, |p|);
            (forall other :: Sorts(other, p) ==> Members(other[..Marks(p, t, other, |p|)]) == Members(order[..k])) <==>
            (k == 0 || k == |p| || p[order[k - 1]] < p[order[k]])
  {
    var k := Marks(p, t, order, |p|);
    SameRank(p, t, order, |p|);
    forall other | Sorts(other, p)
      ensures Marks(p, t, other, |p|) == k
      ensures k == 0 || k == |p| || p[order[k - 1]] < p[order[k]] ==> Members(other[..k]) == Members(order[..k])
    {
      SameRank(p, t, other, |p|);
      NoTieNoChoice(p, order, other, k);
    }
    if 0 < k < |p| && p[order[k - 1]] == p[order[k]] {
      var other := TieSwapped(p, order, k);
    }
  }

  // Two tied points exchanged across a rank: another sorting order, which marks other points up to it.
  lemma TieSwapped(p: seq<real>, order: seq<nat>, k: nat) returns (other: seq<nat>)
    requires Sorts(order, p) && 0 < k < |p| && p[order[k - 1]] == p[order[k]]
    ensures Sorts(other, p) && Members(other[..k]) != Members(order[..k])
  {
    other := order[k - 1 := order[k]][k := order[k - 1]];
    assert order[..k][k - 1] in Members(order[..k]);
    assert forall a :: 0 <= a < k ==> other[a] != order[k - 1];
  }

  // With a rate, or p-values, of at least 0 no tie straddles it, so no sorting order matters.
  lemma SoundIgnoresOrder(p: seq<real>, alpha: real, order: seq<nat>, other: seq<nat>, i: nat)
    requires Sound(p, alpha) && Sorts(order, p) && Sorts(other, p) && i < |p|
    ensures var t := Thresholds(|p|, alpha); i in order[..Marks(p, t, order, |p|)] <==> i in other[..Marks(p, t, other, |p|)]
  {
    ThresholdsRegular(p, alpha);
    MarkedIsRejected(p, Thresholds(|p|, alpha), order, i);
    MarkedIsRejected(p, Thresholds(|p|, alpha), other, i);
  }

  lemma {:induction false} NoTieNoChoice(p: seq<real>, order: seq<nat>, other: seq<nat>, k: nat)
    requires Sorts(order, p) && Sorts(other, p) && k <= |p|
    ensures k == 0 || k == |p| || p[order[k - 1]] < p[order[k]] ==> Members(other[..k]) == Members(order[..k])
  {
    if k == |p| {
      AllMarked(p, order);
      AllMarked(p, other);
    } else if k > 0 && p[order[k - 1]] < p[order[k]] {
      var x := p[order[k - 1]];
      SplitMoves(p, order, other, k, x);
      FirstAreUnder(p, order, k, x);
      FirstAreUnder(p, other, k, x);
    }
  }

  lemma AllMarked(p: seq<real>, order: seq<nat>)
    requires Sorts(order, p)
    ensures Members(order[..|p|]) == UpTo(|p|)
  {
    assert order[..|p|] == order;
    forall i: nat | i < |p|
      ensures i in order
    {
      AllInside(order, |p|, i);
    }
  }

  lemma {:induction false} SplitMoves(p: seq<real>, order: seq<nat>, other: seq<nat>, k: nat, x: real)
    requires Sorts(order, p) && Sorts(other, p) && 0 < k < |p| && p[order[k - 1]] <= x < p[order[k]]
    ensures p[other[k - 1]] <= x < p[other[k]]
  {
    KthWithin(p, order, k, x);
    KthWithin(p, order, k + 1, x);
    KthWithin(p, other, k, x);
    KthWithin(p, other, k + 1, x);
  }

  lemma {:induction false} FirstAreUnder(p: seq<real>, order: seq<nat>, k: nat, x: real)
    requires Sorts(order, p) && 0 < k < |p| && p[order[k - 1]] <= x < p[order[k]]
    ensures Members(order[..k]) == Under(p, x)
  {
    UnderIsEarly(p, order, k, x);
    assert forall a :: 0 <= a < k ==> p[order[a]] <= p[order[k - 1]];
  }

  lemma TwoThresholds()
    ensures Thresholds(2, -1.0) == [-0.5, -1.0]
  {
  }

  // With a negative rate and negative values the selection can depend on how the sort places ties.
  lemma NegativeRateReadsTies()
    ensures var p, t := [-0.7, -0.7], Thresholds(2, -1.0);
            Sorts([0, 1], p) && Sorts([1, 0], p) &&
            Marks(p, t, [0, 1], 2) == 1 == Marks(p, t, [1, 0], 2) && [0, 1][..1] != [1, 0][..1]
  {
    var p, t := [-0.7, -0.7], Thresholds(2, -1.0);
    TwoThresholds();
    assert Marks(p, t, [0, 1], 1) == 1 == Marks(p, t, [1, 0], 1);
    assert [0, 1][..1] == [0] && [1, 0][..1] == [1];
  }
}
