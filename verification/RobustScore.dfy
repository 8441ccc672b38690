/** What a score measures. */
module RobustScore {
  // scripts/diag/detrend.py: the statistics of a window, the trend and the score, in terms of the points.

  import opened Arith
  import opened Detrend
  import opened Medians
  import opened Numpy
  import opened Wrappers

  function CountOf(data: seq<Point>, counts: Keep): (n: nat)
    ensures n <= |data|
  {
    if data == [] then 0 else (if counts(data[0]) then 1 else 0) + CountOf(data[1..], counts)
  }

  function UpTo(counts: Keep, m: real): Keep {
    q => counts(q) && q.v <= m
  }

  function From(counts: Keep, m: real): Keep {
    q => counts(q) && m <= q.v
  }

  function Within(counts: Keep, m: real, d: real): Keep {
    q => counts(q) && m - d <= q.v <= m + d
  }

  function Beyond(counts: Keep, m: real, d: real): Keep {
    q => counts(q) && (q.v <= m - d || m + d <= q.v)
  }

  // ---- what the two statistics of a window say ----

  lemma {:induction false} PooledCounts(data: seq<Point>, counts: Keep, m: real)
    ensures |Pooled(data, counts)| == CountOf(data, counts)
    ensures AtOrBelow(Pooled(data, counts), m) == CountOf(data, UpTo(counts, m))
    ensures AtOrAbove(Pooled(data, counts), m) == CountOf(data, From(counts, m))
  {
    if data != [] {
      PooledCounts(data[1..], counts, m);
      var rest := Pooled(data[1..], counts);
      assert ([data[0].v] + rest)[1..] == rest;
      assert [] + rest == rest;
    }
  }

  lemma {:induction false} DeviationCounts(data: seq<Point>, counts: Keep, m: real, d: real)
    requires d >= 0.0
    ensures AtOrBelow(Deviations(Pooled(data, counts), m), d) == CountOf(data, Within(counts, m, d))
    ensures AtOrAbove(Deviations(Pooled(data, counts), m), d) == CountOf(data, Beyond(counts, m, d))
  {
    if data != [] {
      DeviationCounts(data[1..], counts, m, d);
      var s, rest := Pooled(data, counts), Pooled(data[1..], counts);
      if counts(data[0]) {
        assert s[1..] == rest;
        DeviationsOfFirst(s, m);
      } else {
        assert s == rest;
      }
    }
  }

  lemma DeviationsOfFirst(s: seq<real>, m: real)
    requires s != []
    ensures Deviations(s, m)[0] == Abs(s[0] - m) && Deviations(s, m)[1..] == Deviations(s[1..], m)
  {
  }

  lemma NotNegative(s: seq<real>, m: real)
    requires s != []
    ensures Median(Deviations(s, m)) >= 0.0
  {
    var low, high := MedianIsMiddle(Deviations(s, m));
  }

  /**
   A bin has statistics if and only if enough points count for it. Then at least half of these are at or
   below the first and at least half at or above it; at least half lie within the second of the first, and
   at least half no nearer to it than that.
   */
  lemma WindowHalves(data: seq<Point>, edges: seq<real>, minPerBin: int, keep: Keep, b: nat)
    requires |edges| >= 2
    ensures var counts, stat := Window(edges, keep, b), StatsOf(data, edges, minPerBin, keep)(b);
            var n := CountOf(data, counts);
            && (stat.Some? <==> n >= minPerBin && n > 0)
            && (stat.Some? ==>
                  var (m, d) := stat.value;
                  && d >= 0.0
                  && 2 * CountOf(data, UpTo(counts, m)) >= n && 2 * CountOf(data, From(counts, m)) >= n
                  && 2 * CountOf(data, Within(counts, m, d)) >= n && 2 * CountOf(data, Beyond(counts, m, d)) >= n)
  {
    var counts, stat := Window(edges, keep, b), StatsOf(data, edges, minPerBin, keep)(b);
    var s := Pooled(data, counts);
    PooledCounts(data, counts, 0.0);
    if stat.Some? {
      var (m, d) := stat.value;
      NotNegative(s, m);
      MedianHalves(s);
      MedianHalves(Deviations(s, m));
      PooledCounts(data, counts, m);
      DeviationCounts(data, counts, m, d);
    }
  }

  // Each is the mean of the two middle values: of the pooled points, and of their distances from the first.
  lemma StatIsMiddle(s: seq<real>, minPerBin: int, m: real, d: real) returns (low: real, high: real, near: real, far: real)
    requires Stat(s, minPerBin) == Some((m, d))
    ensures Kth(s, (|s| + 1) / 2, low) && Kth(s, |s| / 2 + 1, high) && m == (low + high) / 2.0
    ensures Kth(Deviations(s, m), (|s| + 1) / 2, near) && Kth(Deviations(s, m), |s| / 2 + 1, far) && d == (near + far) / 2.0
  {
    low, high := MedianIsMiddle(s);
    near, far := MedianIsMiddle(Deviations(s, m));
  }

  // The points that count for a bin are the kept ones from two bins before it to two bins after it.
  lemma WindowSpansFiveBins(edges: seq<real>, keep: Keep, b: nat, q: Point)
    requires |edges| >= 2 && Increasing(edges) && edges[0] <= q.r <= edges[|edges| - 1] && b < |edges| - 1
    ensures Window(edges, keep, b)(q) <==>
              keep(q) && (b >= 2 ==> edges[b - 2] <= q.r) && (b + 3 < |edges| - 1 ==> q.r < edges[b + 3])
  {
    BinHolds(q.r, edges);
  }

  // ---- bins of one width ----

  lemma EdgesAreEven(lo: real, hi: real, n: nat, k: nat)
    requires k < n
    ensures n as real * (Edges(lo, hi, n)[k + 1] - Edges(lo, hi, n)[k]) == hi - lo
  {
    var step := (hi - lo) / n as real;
    assert (k + 1) as real * step == k as real * step + step;
    assert n as real * step == hi - lo;
  }

  // ---- the trend and the scale at a bin ----

  lemma {:induction false} KnotsAscend(stats: Stats, edges: seq<real>, upTo: nat)
    requires upTo < |edges| && Increasing(edges)
    ensures forall i :: 0 <= i < |Knots(stats, edges, upTo)| ==> Knots(stats, edges, upTo)[i].centre < edges[upTo]
    ensures forall i, j :: 0 <= i < j < |Knots(stats, edges, upTo)| ==>
              Knots(stats, edges, upTo)[i].centre < Knots(stats, edges, upTo)[j].centre
  {
    if upTo > 0 {
      KnotsAscend(stats, edges, upTo - 1);
    }
  }

  // A bin with statistics has its knot.
  lemma {:induction false} KnotOfBin(stats: Stats, edges: seq<real>, upTo: nat, b: nat) returns (i: nat)
    requires b < upTo < |edges| && stats(b).Some?
    ensures i < |Knots(stats, edges, upTo)|
    ensures Knots(stats, edges, upTo)[i] == Knot(0.5 * (edges[b] + edges[b + 1]), stats(b).value.0, stats(b).value.1)
  {
    if b == upTo - 1 {
      i := |Knots(stats, edges, upTo - 1)|;
    } else {
      i := KnotOfBin(stats, edges, upTo - 1, b);
    }
  }

  predicate CentresAscend(ks: seq<Knot>) {
    forall i, j :: 0 <= i < j < |ks| ==> ks[i].centre < ks[j].centre
  }

  // The trend and the spread pass through the knots and are constant beyond the outer ones.
  lemma TrendAtKnot(ks: seq<Knot>, i: nat, r: real)
    requires i < |ks| && CentresAscend(ks)
    requires r == ks[i].centre || (i == 0 && r < ks[0].centre) || (i == |ks| - 1 && r > ks[i].centre)
    ensures TrendAt(ks, r) == ks[i].med && MadAt(ks, r) == ks[i].mad
  {
    var c := Centres(ks);
    assert forall j, k :: 0 <= j < k < |c| ==> c[j] < c[k];
    if r == c[i] {
      InterpAtKnot(c, Meds(ks), i);
      InterpAtKnot(c, Mads(ks), i);
    } else if r > c[i] {
      assert 0 < i ==> c[0] < c[i];
      assert LastAtMost(r, c) == i;
    }
  }

  // The robust sigma a bin with the given spread is measured in.
  function Unit(ks: seq<Knot>, d: real): (u: real)
    ensures u > 0.0
  {
    if d > 0.0 then d * 1.4826
    else if ks != [] && Median(Mads(ks)) > 0.0 then Median(Mads(ks)) * 1.4826
    else 1.0
  }

  lemma UnitIsScale(ks: seq<Knot>, r: real, d: real)
    requires ks != [] && MadAt(ks, r) == d
    ensures ScaleAt(ks, r) == Unit(ks, d)
  {
  }

  // A score z says by how many units v lies above m, and only points within 3.5 units of it are kept.
  predicate Measures(z: real, kept: bool, v: real, m: real, unit: real) {
    z * unit == v - m && (kept <==> Abs(v - m) <= 3.5 * unit)
  }

  lemma Negated(limit: real, unit: real)
    ensures -limit * unit == -(limit * unit)
  {
  }

  lemma LimitScaled(x: real, q: real, limit: real, unit: real)
    requires unit > 0.0 && q * unit == x
    ensures Abs(q) <= limit <==> Abs(x) <= limit * unit
  {
    BoundsScaled(q, x, -limit, limit, unit);
    Negated(limit, unit);
  }

  lemma QuotientMeasures(v: real, m: real, unit: real)
    requires unit > 0.0
    ensures Measures((v - m) / unit, Abs((v - m) / unit) <= 3.5, v, m, unit)
  {
    DivTimes(v - m, unit);
    LimitScaled(v - m, (v - m) / unit, 3.5, unit);
  }

  lemma ScoreFrom(ks: seq<Knot>, q: Point, trend: real, unit: real)
    requires ks != [] && TrendAt(ks, q.r) == trend && ScaleAt(ks, q.r) == unit
    ensures Measures(Score(ks, q), Unflagged(ks)(q), q.v, trend, unit)
  {
    QuotientMeasures(q.v, trend, unit);
  }

  lemma ScoreAtKnot(ks: seq<Knot>, i: nat, q: Point)
    requires i < |ks| && CentresAscend(ks) && ks[i].centre == q.r
    ensures Measures(Score(ks, q), Unflagged(ks)(q), q.v, ks[i].med, Unit(ks, ks[i].mad))
  {
    TrendAtKnot(ks, i, q.r);
    UnitIsScale(ks, q.r, ks[i].mad);
    ScoreFrom(ks, q, ks[i].med, Unit(ks, ks[i].mad));
  }

  /**
   A point at the centre of a bin with statistics scores by how many times 1.4826 of the window's median
   absolute deviation it is above the window's median. Where that is zero the unit is 1.4826 times the
   median over all such bins, or 1 if this is zero too. Points beyond 3.5 units are flagged.
   */
  lemma ScoreAtCentre(data: seq<Point>, edges: seq<real>, minPerBin: int, keep: Keep, b: nat, m: real, d: real, q: Point)
    requires |edges| >= 2 && Increasing(edges) && b < |edges| - 1 && q.r == 0.5 * (edges[b] + edges[b + 1])
    requires StatsOf(data, edges, minPerBin, keep)(b) == Some((m, d))
    ensures var ks := AllKnots(data, edges, minPerBin, keep);
            ks != [] && Measures(Score(ks, q), Unflagged(ks)(q), q.v, m, Unit(ks, d))
  {
    var i := KnotOfStats(StatsOf(data, edges, minPerBin, keep), edges, b, m, d);
    ScoreAtKnot(AllKnots(data, edges, minPerBin, keep), i, q);
  }

  lemma KnotOfStats(stats: Stats, edges: seq<real>, b: nat, m: real, d: real) returns (i: nat)
    requires |edges| >= 2 && Increasing(edges) && b < |edges| - 1 && stats(b) == Some((m, d))
    ensures var ks := Knots(stats, edges, |edges| - 1);
            i < |ks| && CentresAscend(ks) && ks[i] == Knot(0.5 * (edges[b] + edges[b + 1]), m, d)
  {
    KnotsAscend(stats, edges, |edges| - 1);
    i := KnotOfBin(stats, edges, |edges| - 1, b);
  }

  // A straight trend leaves no trace: where every window's median lies on one line, so does the trend.
  lemma StraightTrendRemoved(ks: seq<Knot>, slope: real, offset: real, q: Point)
    requires ks != [] && ks[0].centre <= q.r <= ks[|ks| - 1].centre
    requires forall i :: 0 <= i < |ks| ==> ks[i].med == slope * ks[i].centre + offset
    ensures Score(ks, q) == 0.0 <==> q.v == slope * q.r + offset
    ensures Score(ks, q) > 0.0 <==> q.v > slope * q.r + offset
  {
    InterpOnLine(q.r, Centres(ks), Meds(ks), slope, offset);
    SignOfQuotient(q.v - TrendAt(ks, q.r), ScaleAt(ks, q.r));
  }

  lemma SignOfQuotient(x: real, unit: real)
    requires unit > 0.0
    ensures x / unit == 0.0 <==> x == 0.0
    ensures x / unit > 0.0 <==> x > 0.0
  {
    assert x / unit * unit == x;
  }
}
