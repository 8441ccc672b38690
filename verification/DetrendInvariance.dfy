/** What a detrended score does and does not depend on. */
module DetrendInvariance {
  // The order of the points, and, where the fit has spread, the units.

  import opened Detrend
  import opened Medians
  import opened Numpy
  import opened Wrappers

  // ---- the order of the points ----

  lemma {:induction false} PooledJoins(a: seq<Point>, b: seq<Point>, counts: Keep)
    ensures Pooled(a + b, counts) == Pooled(a, counts) + Pooled(b, counts)
  {
    if a == [] {
      assert a + b == b;
    } else {
      assert (a + b)[0] == a[0] && (a + b)[1..] == a[1..] + b;
      PooledJoins(a[1..], b, counts);
      var first := if counts(a[0]) then [a[0].v] else [];
      assert first + (Pooled(a[1..], counts) + Pooled(b, counts)) == (first + Pooled(a[1..], counts)) + Pooled(b, counts);
    }
  }

  lemma {:induction false} PooledOfBag(data: seq<Point>, other: seq<Point>, counts: Keep)
    requires multiset(data) == multiset(other)
    ensures multiset(Pooled(data, counts)) == multiset(Pooled(other, counts))
  {
    if data == [] {
      assert |multiset(other)| == 0;
      assert other == [];
    } else {
      var j := TakeOut(data, other);
      PooledOfBag(data[1..], other[..j] + other[j + 1..], counts);
      PooledJoins(other[..j], other[j + 1..], counts);
      assert other == other[..j] + other[j..];
      PooledJoins(other[..j], other[j..], counts);
      assert other[j..][1..] == other[j + 1..];
    }
  }

  lemma {:induction false} KnotsAgree(stats: Stats, others: Stats, edges: seq<real>, upTo: nat)
    requires upTo < |edges| && forall b :: stats(b) == others(b)
    ensures Knots(stats, edges, upTo) == Knots(others, edges, upTo)
  {
    if upTo > 0 {
      KnotsAgree(stats, others, edges, upTo - 1);
    }
  }

  lemma KnotsOfBag(data: seq<Point>, other: seq<Point>, edges: seq<real>, minPerBin: int, keep: Keep)
    requires multiset(data) == multiset(other) && |edges| >= 2
    ensures AllKnots(data, edges, minPerBin, keep) == AllKnots(other, edges, minPerBin, keep)
  {
    forall b: nat
      ensures StatsOf(data, edges, minPerBin, keep)(b) == StatsOf(other, edges, minPerBin, keep)(b)
    {
      var counts := Window(edges, keep, b);
      PooledOfBag(data, other, counts);
      StatOfBag(Pooled(data, counts), Pooled(other, counts), minPerBin);
    }
    KnotsAgree(StatsOf(data, edges, minPerBin, keep), StatsOf(other, edges, minPerBin, keep), edges, |edges| - 1);
  }

  lemma HasSame(data: seq<Point>, other: seq<Point>, i: nat) returns (j: nat)
    requires multiset(data) == multiset(other) && i < |data|
    ensures j < |other| && other[j] == data[i]
  {
    assert data[i] in multiset(other);
    j :| 0 <= j < |other| && other[j] == data[i];
  }

  lemma SpanOfBag(data: seq<Point>, other: seq<Point>)
    requires multiset(data) == multiset(other) && data != []
    ensures other != [] && Low(data) == Low(other) && High(data) == High(other)
  {
    var first := HasSame(data, other, 0);
    var a :| 0 <= a < |data| && Low(data) == data[a].r;
    var b :| 0 <= b < |other| && Low(other) == other[b].r;
    var a' := HasSame(data, other, a);
    var b' := HasSame(other, data, b);
    var c :| 0 <= c < |data| && High(data) == data[c].r;
    var d :| 0 <= d < |other| && High(other) == other[d].r;
    var c' := HasSame(data, other, c);
    var d' := HasSame(other, data, d);
  }

  lemma KeptOfBag(data: seq<Point>, other: seq<Point>, keep: Keep)
    requires multiset(data) == multiset(other) && AllKept(data, keep)
    ensures AllKept(other, keep)
  {
    forall j | 0 <= j < |other|
      ensures keep(other[j])
    {
      var i := HasSame(other, data, j);
    }
  }

  lemma BinnedOfBag(data: seq<Point>, other: seq<Point>, edges: seq<real>, minPerBin: int, q: Point)
    requires multiset(data) == multiset(other) && |edges| >= 2
    ensures Binned(data, edges, minPerBin, q) == Binned(other, edges, minPerBin, q)
  {
    KnotsOfBag(data, other, edges, minPerBin, Everyone());
    var first := AllKnots(data, edges, minPerBin, Everyone());
    if first != [] {
      if AllKept(data, Unflagged(first)) {
        KeptOfBag(data, other, Unflagged(first));
      } else if AllKept(other, Unflagged(first)) {
        KeptOfBag(other, data, Unflagged(first));
      }
      KnotsOfBag(data, other, edges, minPerBin, Unflagged(first));
    }
  }

  // A point's score depends on the bag of points, through both passes: reordering them reorders the scores.
  lemma Reordered(data: seq<Point>, other: seq<Point>, nBins: nat, minPerBin: int, q: Point)
    requires multiset(data) == multiset(other) && data != []
    ensures other != [] && ZScore(data, nBins, minPerBin, q) == ZScore(other, nBins, minPerBin, q)
  {
    SpanOfBag(data, other);
    if nBins > 0 {
      BinnedOfBag(data, other, Edges(Low(data), High(data), nBins), minPerBin, q);
    }
  }

  // ---- the units: every value v becomes k * v + c ----

  function ScaledPoint(k: real, c: real, q: Point): Point {
    Point(q.r, Scale(k, c, q.v))
  }

  function ScaledPoints(k: real, c: real, data: seq<Point>): (t: seq<Point>)
    ensures |t| == |data| && forall i :: 0 <= i < |data| ==> t[i] == ScaledPoint(k, c, data[i])
  {
    seq(|data|, i requires 0 <= i < |data| => ScaledPoint(k, c, data[i]))
  }

  function ScaledStat(k: real, c: real, s: Option<(real, real)>): Option<(real, real)> {
    match s
    case Some(p) => Some((Scale(k, c, p.0), Scale(k, 0.0, p.1)))
    case None => None
  }

  function ScaledKnots(k: real, c: real, ks: seq<Knot>): (t: seq<Knot>)
    ensures |t| == |ks|
    ensures forall i :: 0 <= i < |ks| ==> t[i] == Knot(ks[i].centre, Scale(k, c, ks[i].med), Scale(k, 0.0, ks[i].mad))
  {
    seq(|ks|, i requires 0 <= i < |ks| => Knot(ks[i].centre, Scale(k, c, ks[i].med), Scale(k, 0.0, ks[i].mad)))
  }

  // The second rule treats the points in the new units as the first treats them in the old.
  ghost predicate Follows(data: seq<Point>, keep: Keep, scaled: Keep, k: real, c: real) {
    forall i :: 0 <= i < |data| ==> scaled(ScaledPoint(k, c, data[i])) == keep(data[i])
  }

  lemma {:induction false} PooledScales(data: seq<Point>, counts: Keep, scaled: Keep, k: real, c: real)
    requires Follows(data, counts, scaled, k, c)
    ensures Pooled(ScaledPoints(k, c, data), scaled) == Scaled(k, c, Pooled(data, counts))
  {
    if data != [] {
      var t := ScaledPoints(k, c, data);
      assert t[1..] == ScaledPoints(k, c, data[1..]);
      assert scaled(ScaledPoint(k, c, data[0])) == counts(data[0]);
      PooledScales(data[1..], counts, scaled, k, c);
      var rest := Pooled(data[1..], counts);
      assert Scaled(k, c, [data[0].v] + rest) == [Scale(k, c, data[0].v)] + Scaled(k, c, rest);
    }
  }

  lemma StatScales(s: seq<real>, minPerBin: int, k: real, c: real)
    requires k > 0.0
    ensures Stat(Scaled(k, c, s), minPerBin) == ScaledStat(k, c, Stat(s, minPerBin))
  {
    if s != [] {
      MedianScales(k, c, s);
      DeviationsScale(k, c, s, Median(s));
      MedianScales(k, 0.0, Deviations(s, Median(s)));
    }
  }

  lemma WindowFollows(data: seq<Point>, edges: seq<real>, keep: Keep, scaled: Keep, b: nat, k: real, c: real)
    requires |edges| >= 2 && Follows(data, keep, scaled, k, c)
    ensures Follows(data, Window(edges, keep, b), Window(edges, scaled, b), k, c)
  {
    forall i | 0 <= i < |data|
      ensures Window(edges, scaled, b)(ScaledPoint(k, c, data[i])) == Window(edges, keep, b)(data[i])
    {
      assert scaled(ScaledPoint(k, c, data[i])) == keep(data[i]);
    }
  }

  lemma {:induction false} KnotsScale(stats: Stats, scaled: Stats, edges: seq<real>, upTo: nat, k: real, c: real)
    requires upTo < |edges| && forall b :: scaled(b) == ScaledStat(k, c, stats(b))
    ensures Knots(scaled, edges, upTo) == ScaledKnots(k, c, Knots(stats, edges, upTo))
  {
    if upTo > 0 {
      KnotsScale(stats, scaled, edges, upTo - 1, k, c);
      assert scaled(upTo - 1) == ScaledStat(k, c, stats(upTo - 1));
    }
  }

  lemma AllKnotsScale(data: seq<Point>, edges: seq<real>, minPerBin: int, keep: Keep, scaled: Keep, k: real, c: real)
    requires |edges| >= 2 && k > 0.0 && Follows(data, keep, scaled, k, c)
    ensures AllKnots(ScaledPoints(k, c, data), edges, minPerBin, scaled) == ScaledKnots(k, c, AllKnots(data, edges, minPerBin, keep))
  {
    var stats := StatsOf(data, edges, minPerBin, keep);
    var after := StatsOf(ScaledPoints(k, c, data), edges, minPerBin, scaled);
    forall b: nat
      ensures after(b) == ScaledStat(k, c, stats(b))
    {
      WindowFollows(data, edges, keep, scaled, b, k, c);
      PooledScales(data, Window(edges, keep, b), Window(edges, scaled, b), k, c);
      StatScales(Pooled(data, Window(edges, keep, b)), minPerBin, k, c);
    }
    KnotsScale(stats, after, edges, |edges| - 1, k, c);
  }

  // ---- the score in the new units ----

  lemma BlendScales(k: real, c: real, a: real, b: real, w: real)
    ensures Scale(k, c, a) + w * (Scale(k, c, b) - Scale(k, c, a)) == Scale(k, c, a + w * (b - a))
  {
    assert w * (k * b - k * a) == k * (w * (b - a)) by {
      assert k * b - k * a == k * (b - a);
    }
  }

  lemma InterpScales(x: real, xp: seq<real>, fp: seq<real>, k: real, c: real)
    requires |xp| == |fp| > 0
    ensures Interp(x, xp, Scaled(k, c, fp)) == Scale(k, c, Interp(x, xp, fp))
  {
    if x >= xp[0] {
      var j := LastAtMost(x, xp);
      if j < |xp| - 1 {
        BlendScales(k, c, fp[j], fp[j + 1], (x - xp[j]) / (xp[j + 1] - xp[j]));
      }
    }
  }

  lemma TrendScales(ks: seq<Knot>, r: real, k: real, c: real)
    requires ks != []
    ensures TrendAt(ScaledKnots(k, c, ks), r) == Scale(k, c, TrendAt(ks, r))
    ensures MadAt(ScaledKnots(k, c, ks), r) == Scale(k, 0.0, MadAt(ks, r))
    ensures Mads(ScaledKnots(k, c, ks)) == Scaled(k, 0.0, Mads(ks))
  {
    assert Centres(ScaledKnots(k, c, ks)) == Centres(ks);
    assert Meds(ScaledKnots(k, c, ks)) == Scaled(k, c, Meds(ks));
    assert Mads(ScaledKnots(k, c, ks)) == Scaled(k, 0.0, Mads(ks));
    InterpScales(r, Centres(ks), Meds(ks), k, c);
    InterpScales(r, Centres(ks), Mads(ks), k, 0.0);
  }

  lemma ScalePositive(k: real, x: real)
    requires k > 0.0
    ensures x > 0.0 <==> Scale(k, 0.0, x) > 0.0
    ensures x > 0.0 <==> x * MAD_TO_SIGMA > 0.0
    ensures Scale(k, 0.0, x) * MAD_TO_SIGMA == k * (x * MAD_TO_SIGMA)
  {
    ScaleKeepsOrder(k, 0.0, x, 0.0);
  }

  // A window, or the median window, has spread where r lies.
  predicate Spread(ks: seq<Knot>, r: real)
    requires ks != []
  {
    MadAt(ks, r) > 0.0 || Median(Mads(ks)) > 0.0
  }

  function Pick(local: real, overall: real): real {
    if local * MAD_TO_SIGMA > 0.0 then local * MAD_TO_SIGMA
    else if overall * MAD_TO_SIGMA > 0.0 then overall * MAD_TO_SIGMA
    else 1.0
  }

  lemma PickScales(k: real, local: real, overall: real)
    requires k > 0.0
    ensures Pick(Scale(k, 0.0, local), Scale(k, 0.0, overall)) ==
            if local > 0.0 || overall > 0.0 then k * Pick(local, overall) else Pick(local, overall)
  {
    ScalePositive(k, local);
    ScalePositive(k, overall);
  }

  lemma ScaleIsPick(ks: seq<Knot>, r: real)
    requires ks != []
    ensures ScaleAt(ks, r) == Pick(MadAt(ks, r), Median(Mads(ks)))
  {
  }

  lemma ScaleAtScales(ks: seq<Knot>, r: real, k: real, c: real)
    requires ks != [] && k > 0.0
    ensures ScaleAt(ScaledKnots(k, c, ks), r) == if Spread(ks, r) then k * ScaleAt(ks, r) else ScaleAt(ks, r)
  {
    SpreadScales(ks, r, k, c);
    ScaleOfSpread(ks, ScaledKnots(k, c, ks), r, k);
  }

  lemma ScaleOfSpread(ks: seq<Knot>, there: seq<Knot>, r: real, k: real)
    requires ks != [] && there != [] && k > 0.0
    requires MadAt(there, r) == Scale(k, 0.0, MadAt(ks, r)) && Median(Mads(there)) == Scale(k, 0.0, Median(Mads(ks)))
    ensures ScaleAt(there, r) == if Spread(ks, r) then k * ScaleAt(ks, r) else ScaleAt(ks, r)
  {
    ScaleIsPick(ks, r);
    ScaleIsPick(there, r);
    PicksScale(k, MadAt(ks, r), Median(Mads(ks)), MadAt(there, r), Median(Mads(there)), ScaleAt(ks, r), ScaleAt(there, r));
  }

  lemma PicksScale(k: real, local: real, overall: real, local': real, overall': real, s: real, s': real)
    requires k > 0.0 && local' == Scale(k, 0.0, local) && overall' == Scale(k, 0.0, overall)
    requires s == Pick(local, overall) && s' == Pick(local', overall')
    ensures s' == if local > 0.0 || overall > 0.0 then k * s else s
  {
    PickScales(k, local, overall);
  }

  lemma SpreadScales(ks: seq<Knot>, r: real, k: real, c: real)
    requires ks != [] && k > 0.0
    ensures MadAt(ScaledKnots(k, c, ks), r) == Scale(k, 0.0, MadAt(ks, r))
    ensures Median(Mads(ScaledKnots(k, c, ks))) == Scale(k, 0.0, Median(Mads(ks)))
  {
    TrendScales(ks, r, k, c);
    MedianScales(k, 0.0, Mads(ks));
  }

  lemma QuotientScales(k: real, c: real, v: real, t: real, s: real)
    requires k > 0.0 && s > 0.0
    ensures k * s > 0.0 && (Scale(k, c, v) - Scale(k, c, t)) / (k * s) == (v - t) / s
    ensures (Scale(k, c, v) - Scale(k, c, t)) / s == (v - t) / s <==> k == 1.0 || v == t
  {
    assert k * s > 0.0;
    assert k * v - k * t == k * (v - t);
    var z := (v - t) / s;
    assert z * s == v - t;
    assert k * (z * s) == z * (k * s);
    Cancel(k * (v - t), z, k * s);
    assert k * (z * s) == (k * z) * s;
    Cancel(k * (v - t), k * z, s);
    assert k * z == z <==> (k - 1.0) * z == 0.0;
    assert z == 0.0 <==> v == t;
    NoZeroDivisors(k - 1.0, z);
  }

  lemma Cancel(a: real, z: real, s: real)
    requires s > 0.0 && a == z * s
    ensures a / s == z
  {
  }

  lemma NoZeroDivisors(a: real, b: real)
    ensures a * b == 0.0 <==> a == 0.0 || b == 0.0
  {
  }

  lemma RatioScales(k: real, c: real, v: real, t: real, s: real, s': real, spread: bool)
    requires k > 0.0 && s > 0.0 && s' > 0.0 && s' == if spread then k * s else s
    ensures (Scale(k, c, v) - Scale(k, c, t)) / s' == (v - t) / s <==> k == 1.0 || spread || v == t
  {
    QuotientScales(k, c, v, t, s);
  }

  // One pass gives the same score in both units exactly when the units are only shifted, the fit has
  // spread at the point, or the point is on the trend.
  lemma ScoreScales(ks: seq<Knot>, q: Point, k: real, c: real)
    requires ks != [] && k > 0.0
    ensures Score(ScaledKnots(k, c, ks), ScaledPoint(k, c, q)) == Score(ks, q)
            <==> k == 1.0 || Spread(ks, q.r) || q.v == TrendAt(ks, q.r)
  {
    TrendScales(ks, q.r, k, c);
    ScaleAtScales(ks, q.r, k, c);
    RatioScales(k, c, q.v, TrendAt(ks, q.r), ScaleAt(ks, q.r), ScaleAt(ScaledKnots(k, c, ks), q.r), Spread(ks, q.r));
  }

  // Without spread the units show in the score.
  lemma ScoreWithoutSpread(ks: seq<Knot>, q: Point, k: real, c: real)
    requires ks != [] && k > 0.0 && !Spread(ks, q.r)
    ensures Score(ScaledKnots(k, c, ks), ScaledPoint(k, c, q)) == k * Score(ks, q)
  {
    TrendScales(ks, q.r, k, c);
    ScaleAtScales(ks, q.r, k, c);
    RatioWithoutSpread(k, c, q.v, TrendAt(ks, q.r), ScaleAt(ks, q.r));
  }

  lemma RatioWithoutSpread(k: real, c: real, v: real, t: real, s: real)
    requires s > 0.0
    ensures (Scale(k, c, v) - Scale(k, c, t)) / s == k * ((v - t) / s)
  {
    var z := (v - t) / s;
    assert z * s == v - t;
    assert k * v - k * t == k * (v - t) == (k * z) * s;
    Cancel(k * (v - t), k * z, s);
  }

  // Whether the point stays on its side of the flagging bound in the new units: it does if the fit has spread
  // there, and otherwise if its score is not between the bound in the old units and the bound in the new ones.
  predicate FlagKept(ks: seq<Knot>, q: Point, k: real)
    requires ks != [] && k > 0.0
  {
    k == 1.0 || Spread(ks, q.r) || (Abs(Score(ks, q)) <= REFINE_Z <==> Abs(Score(ks, q)) <= REFINE_Z / k)
  }

  lemma FlagScales(ks: seq<Knot>, q: Point, k: real, c: real)
    requires ks != [] && k > 0.0
    ensures Unflagged(ScaledKnots(k, c, ks))(ScaledPoint(k, c, q)) == Unflagged(ks)(q) <==> FlagKept(ks, q, k)
  {
    var there, p := ScaledKnots(k, c, ks), ScaledPoint(k, c, q);
    UnflaggedIs(ks, q);
    UnflaggedIs(there, p);
    ScoreInUnits(ks, q, k, c);
    FlagKeptIs(ks, q, k, Score(there, p));
  }

  lemma UnflaggedIs(ks: seq<Knot>, q: Point)
    requires ks != []
    ensures Unflagged(ks)(q) == (Abs(Score(ks, q)) <= REFINE_Z)
  {
  }

  lemma FlagKeptIs(ks: seq<Knot>, q: Point, k: real, z': real)
    requires ks != [] && k > 0.0 && z' == if k == 1.0 || Spread(ks, q.r) then Score(ks, q) else k * Score(ks, q)
    ensures (Abs(z') <= REFINE_Z) == (Abs(Score(ks, q)) <= REFINE_Z) <==> FlagKept(ks, q, k)
  {
    BoundKept(k, Score(ks, q), z', Spread(ks, q.r));
  }

  lemma ScoreInUnits(ks: seq<Knot>, q: Point, k: real, c: real)
    requires ks != [] && k > 0.0
    ensures Score(ScaledKnots(k, c, ks), ScaledPoint(k, c, q)) == if k == 1.0 || Spread(ks, q.r) then Score(ks, q) else k * Score(ks, q)
  {
    ScoreScales(ks, q, k, c);
    if k != 1.0 && !Spread(ks, q.r) {
      ScoreWithoutSpread(ks, q, k, c);
    }
  }

  lemma BoundKept(k: real, z: real, z': real, spread: bool)
    requires k > 0.0 && z' == if k == 1.0 || spread then z else k * z
    ensures (Abs(z') <= REFINE_Z) == (Abs(z) <= REFINE_Z) <==>
            k == 1.0 || spread || (Abs(z) <= REFINE_Z <==> Abs(z) <= REFINE_Z / k)
  {
    if k != 1.0 && !spread {
      AbsScales(k, z);
      var bound := REFINE_Z / k;
      assert bound * k == REFINE_Z;
      ScaleKeepsOrder(k, 0.0, Abs(z), bound);
    }
  }

  lemma AbsScales(k: real, z: real)
    requires k > 0.0
    ensures Abs(k * z) == k * Abs(z)
  {
    assert z >= 0.0 ==> k * z >= 0.0;
    assert z < 0.0 ==> k * z < 0.0;
  }

  // The first pass flags the same points in both units.
  predicate FlagsKept(data: seq<Point>, first: seq<Knot>, k: real)
    requires k > 0.0
  {
    first != [] ==> forall i :: 0 <= i < |data| ==> FlagKept(first, data[i], k)
  }

  lemma FlagsKeptExactly(data: seq<Point>, ks: seq<Knot>, k: real, c: real)
    requires ks != [] && k > 0.0
    ensures Follows(data, Unflagged(ks), Unflagged(ScaledKnots(k, c, ks)), k, c) <==> FlagsKept(data, ks, k)
  {
    forall i | 0 <= i < |data|
      ensures Unflagged(ScaledKnots(k, c, ks))(ScaledPoint(k, c, data[i])) == Unflagged(ks)(data[i]) <==> FlagKept(ks, data[i], k)
    {
      FlagScales(ks, data[i], k, c);
    }
  }

  lemma AllKeptFollows(data: seq<Point>, keep: Keep, scaled: Keep, k: real, c: real)
    requires Follows(data, keep, scaled, k, c)
    ensures AllKept(ScaledPoints(k, c, data), scaled) == AllKept(data, keep)
  {
    forall i | 0 <= i < |data|
      ensures scaled(ScaledPoints(k, c, data)[i]) == keep(data[i])
    {
      assert scaled(ScaledPoint(k, c, data[i])) == keep(data[i]);
    }
  }

  function FirstFit(data: seq<Point>, edges: seq<real>, minPerBin: int): seq<Knot>
    requires |edges| >= 2
  {
    AllKnots(data, edges, minPerBin, Everyone())
  }

  // The fit that scores the points: the first if it flags none of them, otherwise the second.
  function LastFit(data: seq<Point>, edges: seq<real>, minPerBin: int): seq<Knot>
    requires |edges| >= 2
  {
    var first := FirstFit(data, edges, minPerBin);
    if first == [] || AllKept(data, Unflagged(first)) then first
    else AllKnots(data, edges, minPerBin, Unflagged(first))
  }

  lemma BinnedIsLastFit(data: seq<Point>, edges: seq<real>, minPerBin: int, q: Point)
    requires |edges| >= 2
    ensures var last := LastFit(data, edges, minPerBin);
      Binned(data, edges, minPerBin, q) == if last == [] then 0.0 else Score(last, q)
  {
  }

  // With the same points flagged, both passes are fitted to the same bins in the new units.
  lemma LastFitScales(data: seq<Point>, edges: seq<real>, minPerBin: int, k: real, c: real)
    requires |edges| >= 2 && k > 0.0 && FlagsKept(data, FirstFit(data, edges, minPerBin), k)
    ensures LastFit(ScaledPoints(k, c, data), edges, minPerBin) == ScaledKnots(k, c, LastFit(data, edges, minPerBin))
  {
    var first := FirstFit(data, edges, minPerBin);
    AllKnotsScale(data, edges, minPerBin, Everyone(), Everyone(), k, c);
    if first != [] {
      var keep, scaled := Unflagged(first), Unflagged(ScaledKnots(k, c, first));
      FlagsKeptExactly(data, first, k, c);
      AllKeptFollows(data, keep, scaled, k, c);
      AllKnotsScale(data, edges, minPerBin, keep, scaled, k, c);
    }
  }

  // The score reads the units at q: the fit has no spread there and q is off its trend.
  predicate ReadsUnits(fit: seq<Knot>, q: Point, k: real) {
    k != 1.0 && fit != [] && !Spread(fit, q.r) && q.v != TrendAt(fit, q.r)
  }

  lemma BinnedScalesExactly(data: seq<Point>, edges: seq<real>, minPerBin: int, q: Point, k: real, c: real)
    requires |edges| >= 2 && k > 0.0 && FlagsKept(data, FirstFit(data, edges, minPerBin), k)
    ensures Binned(ScaledPoints(k, c, data), edges, minPerBin, ScaledPoint(k, c, q)) == Binned(data, edges, minPerBin, q)
       <==> !ReadsUnits(LastFit(data, edges, minPerBin), q, k)
  {
    var last := LastFit(data, edges, minPerBin);
    BinnedIsLastFit(data, edges, minPerBin, q);
    BinnedIsLastFit(ScaledPoints(k, c, data), edges, minPerBin, ScaledPoint(k, c, q));
    LastFitScales(data, edges, minPerBin, k, c);
    if last != [] {
      ScoreScales(last, q, k, c);
    }
  }

  lemma {:induction false} SpanScales(data: seq<Point>, k: real, c: real)
    requires data != []
    ensures Low(ScaledPoints(k, c, data)) == Low(data) && High(ScaledPoints(k, c, data)) == High(data)
  {
    if |data| > 1 {
      assert ScaledPoints(k, c, data)[1..] == ScaledPoints(k, c, data[1..]);
      SpanScales(data[1..], k, c);
    }
  }

  /**
   Both passes, exactly: when no point crosses the flagging bound, a score is the same in the new units if and
   only if the fit it was read off, the second where the first flagged anything, does not read the units there.
   */
  lemma UnitsMatterExactly(data: seq<Point>, nBins: nat, minPerBin: int, q: Point, k: real, c: real)
    requires data != [] && k > 0.0 && nBins > 0 && Low(data) < High(data)
    requires FlagsKept(data, FirstFit(data, Edges(Low(data), High(data), nBins), minPerBin), k)
    ensures ZScore(ScaledPoints(k, c, data), nBins, minPerBin, ScaledPoint(k, c, q)) == ZScore(data, nBins, minPerBin, q)
       <==> !ReadsUnits(LastFit(data, Edges(Low(data), High(data), nBins), minPerBin), q, k)
  {
    SpanScales(data, k, c);
    BinnedScalesExactly(data, Edges(Low(data), High(data), nBins), minPerBin, q, k, c);
  }

  // The median bin has spread in every pass, or the units are only shifted.
  predicate Measurable(ks: seq<Knot>, k: real) {
    k == 1.0 || ks == [] || Median(Mads(ks)) > 0.0
  }

  // So adding a constant never changes a score, and changing the scale does not where each pass has spread.
  lemma UnitsDoNotMatter(data: seq<Point>, nBins: nat, minPerBin: int, q: Point, k: real, c: real)
    requires data != [] && k > 0.0
    requires nBins > 0 ==> var edges := Edges(Low(data), High(data), nBins);
      Measurable(FirstFit(data, edges, minPerBin), k) && Measurable(LastFit(data, edges, minPerBin), k)
    ensures ZScore(ScaledPoints(k, c, data), nBins, minPerBin, ScaledPoint(k, c, q)) == ZScore(data, nBins, minPerBin, q)
  {
    if nBins > 0 && Low(data) < High(data) {
      UnitsMatterExactly(data, nBins, minPerBin, q, k, c);
    } else {
      SpanScales(data, k, c);
    }
  }

  // ---- a trend without spread reads the units ----

  function Spike(x: real): seq<Point> {
    [Point(0.0, 0.0), Point(0.0, 0.0), Point(1.0, x)]
  }

  // One bin, and its fit.
  predicate OneBin(edges: seq<real>) {
    edges == [0.0, 1.0]
  }

  predicate Flat(ks: seq<Knot>) {
    ks == [Knot(0.5, 0.0, 0.0)]
  }

  lemma SpikeSpan(x: real)
    ensures Low(Spike(x)) == 0.0 && High(Spike(x)) == 1.0
  {
  }

  lemma UnitEdges()
    ensures OneBin(Edges(0.0, 1.0, 1))
  {
  }

  lemma SpikeIsBinned(x: real, minPerBin: int, q: Point, edges: seq<real>)
    requires OneBin(edges)
    ensures ZScore(Spike(x), 1, minPerBin, q) == Binned(Spike(x), edges, minPerBin, q)
  {
    SpikeSpan(x);
    UnitEdges();
  }

  lemma OneBinFit(data: seq<Point>, edges: seq<real>, minPerBin: int, keep: Keep)
    requires OneBin(edges)
    ensures AllKnots(data, edges, minPerBin, keep) ==
      match Stat(Pooled(data, Window(edges, keep, 0)), minPerBin) { case Some(s) => [Knot(0.5, s.0, s.1)] case None => [] }
  {
    assert Knots(StatsOf(data, edges, minPerBin, keep), edges, 0) == [];
  }

  lemma SpikePooled(x: real, edges: seq<real>, keep: Keep)
    requires OneBin(edges) && keep == Everyone()
    ensures Pooled(Spike(x), Window(edges, keep, 0)) == [0.0, 0.0, x]
  {
    var counts := Window(edges, keep, 0);
    assert Spike(x)[1..] == [Point(0.0, 0.0), Point(1.0, x)];
    assert Spike(x)[1..][1..] == [Point(1.0, x)];
    assert Pooled([Point(1.0, x)], counts) == [x];
    assert Pooled(Spike(x)[1..], counts) == [0.0, x];
  }

  lemma PooledWithout(x: real, counts: Keep)
    requires !counts(Point(1.0, x))
    ensures |Pooled(Spike(x), counts)| <= 2
  {
    assert Spike(x)[1..] == [Point(0.0, 0.0), Point(1.0, x)];
    assert Spike(x)[1..][1..] == [Point(1.0, x)];
    assert Pooled([Point(1.0, x)], counts) == [];
  }

  lemma SpikeMedian(x: real)
    requires x > 0.0
    ensures Median([0.0, 0.0, x]) == 0.0
  {
    assert [0.0, 0.0, x][1..] == [0.0, x] && [0.0, x][1..] == [x];
    assert Sort([x]) == [x];
    assert Sort([0.0, x]) == [0.0, x];
  }

  lemma SpikeStat(x: real, minPerBin: int)
    requires x > 0.0 && minPerBin <= 3
    ensures Stat([0.0, 0.0, x], minPerBin) == Some((0.0, 0.0))
  {
    SpikeMedian(x);
    assert Deviations([0.0, 0.0, x], 0.0) == [0.0, 0.0, x];
  }

  lemma SpikeFirstFit(x: real, edges: seq<real>, minPerBin: int)
    requires x > 0.0 && OneBin(edges) && minPerBin <= 3
    ensures Flat(FirstFit(Spike(x), edges, minPerBin))
  {
    SpikePooled(x, edges, Everyone());
    SpikeStat(x, minPerBin);
    OneBinFit(Spike(x), edges, minPerBin, Everyone());
  }

  lemma SpikeFit(ks: seq<Knot>, r: real, v: real)
    requires Flat(ks)
    ensures Score(ks, Point(r, v)) == v
    ensures Unflagged(ks)(Point(r, v)) <==> Abs(v) <= REFINE_Z
  {
    assert Mads(ks) == [0.0] && Sort([0.0]) == [0.0];
    assert TrendAt(ks, r) == 0.0 && MadAt(ks, r) == 0.0;
  }

  lemma SpikeKept(ks: seq<Knot>, x: real)
    requires Flat(ks) && x > 0.0
    ensures AllKept(Spike(x), Unflagged(ks)) <==> x <= REFINE_Z
  {
    var keep := Unflagged(ks);
    SpikeFit(ks, 0.0, 0.0);
    SpikeFit(ks, 1.0, x);
    assert Spike(x)[2] == Point(1.0, x);
  }

  lemma SpikeScore(x: real, minPerBin: int)
    requires 0.0 < x <= REFINE_Z && minPerBin <= 3
    ensures ZScore(Spike(x), 1, minPerBin, Point(1.0, x)) == x
  {
    var edges := Edges(0.0, 1.0, 1);
    UnitEdges();
    SpikeIsBinned(x, minPerBin, Point(1.0, x), edges);
    SpikeFirstFit(x, edges, minPerBin);
    SpikeKept(FirstFit(Spike(x), edges, minPerBin), x);
    SpikeFit(FirstFit(Spike(x), edges, minPerBin), 1.0, x);
    BinnedIsLastFit(Spike(x), edges, minPerBin, Point(1.0, x));
  }

  // A higher spike is flagged, and what is left is too little for a second fit of three points.
  lemma SpikeFlagged(x: real, edges: seq<real>)
    requires x > REFINE_Z && OneBin(edges)
    ensures LastFit(Spike(x), edges, 3) == []
    ensures ZScore(Spike(x), 1, 3, Point(1.0, x)) == 0.0
  {
    var first := FirstFit(Spike(x), edges, 3);
    SpikeIsBinned(x, 3, Point(1.0, x), edges);
    SpikeFirstFit(x, edges, 3);
    SpikeKept(first, x);
    SpikeFit(first, 1.0, x);
    PooledWithout(x, Window(edges, Unflagged(first), 0));
    OneBinFit(Spike(x), edges, 3, Unflagged(first));
    BinnedIsLastFit(Spike(x), edges, 3, Point(1.0, x));
  }

  // Doubling the values doubles the score here: both passes see one bin, and its spread is zero.
  lemma UnitsMatterWithoutSpread()
    ensures ScaledPoints(2.0, 0.0, Spike(1.0)) == Spike(2.0)
    ensures ZScore(Spike(1.0), 1, 1, Point(1.0, 1.0)) == 1.0
    ensures ZScore(ScaledPoints(2.0, 0.0, Spike(1.0)), 1, 1, ScaledPoint(2.0, 0.0, Point(1.0, 1.0))) == 2.0
  {
    assert ScaledPoints(2.0, 0.0, Spike(1.0)) == Spike(2.0);
    SpikeScore(1.0, 1);
    SpikeScore(2.0, 1);
  }

  // A point that crosses the flagging bound changes a score although the last fit does not read the units: in the
  // units given it is flagged and nothing is fitted, in a quarter of them it is scored.
  lemma FlagsMatter()
    ensures ScaledPoints(0.25, 0.0, Spike(4.0)) == Spike(1.0)
    ensures !ReadsUnits(LastFit(Spike(4.0), Edges(Low(Spike(4.0)), High(Spike(4.0)), 1), 3), Point(1.0, 4.0), 0.25)
    ensures ZScore(Spike(4.0), 1, 3, Point(1.0, 4.0)) == 0.0
    ensures ZScore(ScaledPoints(0.25, 0.0, Spike(4.0)), 1, 3, ScaledPoint(0.25, 0.0, Point(1.0, 4.0))) == 1.0
  {
    assert ScaledPoints(0.25, 0.0, Spike(4.0)) == Spike(1.0);
    SpikeSpan(4.0);
    UnitEdges();
    SpikeFlagged(4.0, Edges(0.0, 1.0, 1));
    SpikeScore(1.0, 3);
  }
}
