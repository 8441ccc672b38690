/** packages/force-plotting/src/compare.ts: two cuts on a common grid, and their difference. */
module Compare {
  import opened Arith
  import opened Numpy
  import opened Wrappers

  // ---- interp ----

  // How many knots lie before x.
  function Before(x: real, xp: seq<real>): (n: nat)
    requires Ascending(xp)
    ensures n <= |xp| && (forall k :: 0 <= k < n ==> xp[k] < x) && (forall k :: n <= k < |xp| ==> x <= xp[k])
  {
    if xp == [] then 0 else if xp[|xp| - 1] < x then |xp| else Before(x, xp[..|xp| - 1])
  }

  function Blend(x: real, x0: real, x1: real, y0: real, y1: real): real
    requires x0 < x1
  {
    y0 + (x - x0) / (x1 - x0) * (y1 - y0)
  }

  // Constant beyond the ends; otherwise linear between the last knot before x and the next.
  function Value(x: real, xp: seq<real>, fp: seq<real>): real
    requires Ascending(xp) && |xp| == |fp| > 0
  {
    if x <= xp[0] then fp[0]
    else if x >= xp[|xp| - 1] then fp[|fp| - 1]
    else
      var n := Before(x, xp);
      Blend(x, xp[n - 1], xp[n], fp[n - 1], fp[n])
  }

  function Values(x: seq<real>, xp: seq<real>, fp: seq<real>): (v: seq<real>)
    requires Ascending(xp) && |xp| == |fp| > 0
    ensures |v| == |x| && forall i :: 0 <= i < |x| ==> v[i] == Value(x[i], xp, fp)
  {
    seq(|x|, i requires 0 <= i < |x| => Value(x[i], xp, fp))
  }

  // One forward pointer serves every query: it never divides by zero, even where knots repeat.
  method Interp(x: seq<real>, xp: seq<real>, fp: seq<real>) returns (out: array<real>)
    requires Ascending(x) && Ascending(xp) && |xp| == |fp| > 0
    ensures fresh(out) && out[..] == Values(x, xp, fp)
  {
    out := new real[|x|](_ => 0.0);
    var j := 0;
    for i := 0 to |x|
      invariant forall k :: 0 <= k < i ==> out[k] == Value(x[k], xp, fp)
      invariant 0 <= j < |xp| && forall k, l :: 0 < k <= j && i <= l < |x| ==> xp[k] < x[l]
    {
      var xi := x[i];
      if xi <= xp[0] {
        out[i] := fp[0];
      } else if xi >= xp[|xp| - 1] {
        out[i] := fp[|fp| - 1];
      } else {
        j := Advance(xi, xp, j);
        assert Before(xi, xp) == j + 1;
        var x0, x1, y0, y1 := xp[j], xp[j + 1], fp[j], fp[j + 1];
        var t := (xi - x0) / (x1 - x0);
        out[i] := y0 + t * (y1 - y0);
      }
    }
  }

  method Advance(xi: real, xp: seq<real>, from: nat) returns (j: nat)
    requires Ascending(xp) && |xp| >= 2 && xp[0] < xi < xp[|xp| - 1] && from < |xp| && (from > 0 ==> xp[from] < xi)
    ensures from <= j < |xp| - 1 && xp[j] < xi <= xp[j + 1]
  {
    j := from;
    while j < |xp| - 2 && xp[j + 1] < xi
      invariant from <= j < |xp| - 1 && xp[j] < xi
    {
      j := j + 1;
    }
  }

  lemma FractionInside(a: real, d: real)
    requires 0.0 < a <= d
    ensures 0.0 < a / d <= 1.0 && (a == d ==> a / d == 1.0)
  {
    DivTimes(a, d);
    MulOrder(0.0, a / d, d);
    MulOrder(a / d, 1.0, d);
  }

  lemma BlendIsBetween(x: real, x0: real, x1: real, y0: real, y1: real)
    requires x0 < x <= x1
    ensures y0 <= y1 ==> y0 <= Blend(x, x0, x1, y0, y1) <= y1
    ensures y1 <= y0 ==> y1 <= Blend(x, x0, x1, y0, y1) <= y0
    ensures x == x1 ==> Blend(x, x0, x1, y0, y1) == y1
  {
    var t := (x - x0) / (x1 - x0);
    FractionInside(x - x0, x1 - x0);
    if y0 <= y1 {
      Shrinks(t, y1 - y0);
    } else {
      Shrinks(t, y0 - y1);
      Opposite(t, y0, y1);
    }
  }

  lemma Opposite(t: real, a: real, b: real)
    ensures t * (b - a) == -(t * (a - b))
  {
  }

  lemma Shrinks(t: real, d: real)
    requires 0.0 <= t <= 1.0 && d >= 0.0
    ensures 0.0 <= t * d <= d
  {
    assert (1.0 - t) * d >= 0.0;
  }

  // The value stays between its bracketing values.
  lemma ValueIsBracketed(x: real, xp: seq<real>, fp: seq<real>) returns (k: nat, l: nat)
    requires Ascending(xp) && |xp| == |fp| > 0
    ensures k < |xp| && l < |xp| && (l == k || l == k + 1)
    ensures fp[k] <= Value(x, xp, fp) <= fp[l] || fp[l] <= Value(x, xp, fp) <= fp[k]
    ensures xp[0] < x < xp[|xp| - 1] ==> xp[k] < x <= xp[l]
  {
    if x <= xp[0] {
      k, l := 0, 0;
    } else if x >= xp[|xp| - 1] {
      k, l := |xp| - 1, |xp| - 1;
    } else {
      l := Before(x, xp);
      k := l - 1;
      BlendIsBetween(x, xp[k], xp[l], fp[k], fp[l]);
    }
  }

  lemma KnotsAt(x: real, xp: seq<real>)
    requires Ascending(xp) && x in xp
    ensures var n, j := Before(x, xp), LastAtMost(x, xp); n <= j && xp[n] == x && xp[j] == x
  {
    var i :| 0 <= i < |xp| && xp[i] == x;
    assert xp[0] <= xp[i] || i == 0;
    assert Before(x, xp) <= i <= LastAtMost(x, xp);
  }

  // Where x is a knot, the value is that of its first occurrence.
  lemma FirstKnotWins(x: real, xp: seq<real>, fp: seq<real>)
    requires Ascending(xp) && |xp| == |fp| > 0 && x in xp && x < xp[|xp| - 1]
    ensures Value(x, xp, fp) == fp[Before(x, xp)]
  {
    KnotsAt(x, xp);
    var n := Before(x, xp);
    if n > 0 {
      BlendIsBetween(x, xp[n - 1], xp[n], fp[n - 1], fp[n]);
    }
  }

  // np.interp takes that of the last.
  lemma LastKnotWins(x: real, xp: seq<real>, fp: seq<real>)
    requires Ascending(xp) && |xp| == |fp| > 0 && x in xp
    ensures Numpy.Interp(x, xp, fp) == fp[LastAtMost(x, xp)]
  {
    KnotsAt(x, xp);
    var j := LastAtMost(x, xp);
    if j < |xp| - 1 {
      ZeroShare(xp[j + 1] - xp[j], fp[j + 1] - fp[j]);
    }
  }

  lemma ZeroShare(d: real, h: real)
    requires d > 0.0
    ensures 0.0 / d * h == 0.0
  {
  }

  // It is np.interp everywhere, exactly up to the choice among repeated knots.
  lemma AgreesWithNumpy(x: real, xp: seq<real>, fp: seq<real>)
    requires Ascending(xp) && |xp| == |fp| > 0
    ensures Value(x, xp, fp) == Numpy.Interp(x, xp, fp) <==>
            (x >= xp[|xp| - 1] && x > xp[0]) || x !in xp || fp[Before(x, xp)] == fp[LastAtMost(x, xp)]
  {
    if x < xp[|xp| - 1] && x in xp {
      FirstKnotWins(x, xp, fp);
      LastKnotWins(x, xp, fp);
    } else if xp[0] < x < xp[|xp| - 1] {
      SameBracket(x, xp);
    } else if x >= xp[|xp| - 1] {
      assert LastAtMost(x, xp) == |xp| - 1;
    }
  }

  lemma SameBracket(x: real, xp: seq<real>)
    requires Ascending(xp) && |xp| > 0 && x !in xp && xp[0] < x < xp[|xp| - 1]
    ensures Before(x, xp) == LastAtMost(x, xp) + 1 < |xp|
  {
    var n, j := Before(x, xp), LastAtMost(x, xp);
    assert x != xp[j] && (n < |xp| ==> x != xp[n]);
  }

  // ---- alignAndDiff ----

  datatype Error = LengthMismatch | NoOverlap | TooSmall

  datatype Aligned = Aligned(rev: seq<real>, a: seq<real>, b: seq<real>, diff: seq<real>)

  // Math.max(..., range?.[0] ?? -Infinity)
  function Low(a: real, b: real, range: Option<(real, real)>): real {
    if range.Some? then Max(Max(a, b), range.value.0) else Max(a, b)
  }

  function High(a: real, b: real, range: Option<(real, real)>): real {
    if range.Some? then Min(Min(a, b), range.value.1) else Min(a, b)
  }

  // The grid: n points from lo, samplesPerRev to the unit.
  function Grid(lo: real, samplesPerRev: real, n: nat): (rev: seq<real>)
    requires samplesPerRev > 0.0
    ensures |rev| == n && forall i :: 0 <= i < n ==> rev[i] == lo + i as real / samplesPerRev
  {
    seq(n, i requires 0 <= i < n => lo + i as real / samplesPerRev)
  }

  lemma GridAscends(lo: real, samplesPerRev: real, n: nat)
    requires samplesPerRev > 0.0
    ensures Ascending(Grid(lo, samplesPerRev, n))
  {
    forall a, b | 0 <= a < b < n
      ensures Grid(lo, samplesPerRev, n)[a] <= Grid(lo, samplesPerRev, n)[b]
    {
      QuotientsOrdered(a as real, b as real, samplesPerRev);
    }
  }

  lemma QuotientsOrdered(a: real, b: real, d: real)
    requires a <= b && d > 0.0
    ensures a / d <= b / d
  {
    DivTimes(a, d);
    DivTimes(b, d);
    MulOrder(a / d, b / d, d);
  }

  function Differences(a: seq<real>, b: seq<real>): (d: seq<real>)
    requires |a| == |b|
    ensures |d| == |a| && forall i :: 0 <= i < |a| ==> d[i] == a[i] - b[i]
  {
    seq(|a|, i requires 0 <= i < |a| => a[i] - b[i])
  }

  function Points(lo: real, hi: real, samplesPerRev: real): int {
    ((hi - lo) * samplesPerRev).Floor
  }

  lemma PointsNeedRate(lo: real, hi: real, samplesPerRev: real)
    requires lo < hi && Points(lo, hi, samplesPerRev) >= 1
    ensures samplesPerRev > 0.0
  {
    MulOrder(0.0, samplesPerRev, hi - lo);
    assert samplesPerRev * (hi - lo) == (hi - lo) * samplesPerRev;
  }

  ghost predicate Cut(rev: seq<real>) {
    rev != [] && Ascending(rev)
  }

  // A way of reading a signal at given places: one value for each.
  type Interpolation = (seq<real>, seq<real>, seq<real>) -> seq<real>

  ghost predicate OnePerQuery(at: Interpolation) {
    forall x, xp, fp :: |at(x, xp, fp)| == |x|
  }

  // interp, on the ascending bases it is meant for.
  ghost predicate ReadsKnots(at: Interpolation) {
    OnePerQuery(at) && forall x, xp, fp :: Ascending(xp) && |xp| == |fp| > 0 ==> at(x, xp, fp) == Values(x, xp, fp)
  }

  function AlignedDiff(at: Interpolation, revA: seq<real>, sigA: seq<real>, revB: seq<real>, sigB: seq<real>, samplesPerRev: real,
                       range: Option<(real, real)>): Result<Aligned, Error>
    requires revA != [] && revB != [] && OnePerQuery(at)
  {
    if |revA| != |sigA| || |revB| != |sigB| then Err(LengthMismatch)
    else
      var lo, hi := Low(revA[0], revB[0], range), High(revA[|revA| - 1], revB[|revB| - 1], range);
      if hi <= lo then Err(NoOverlap)
      else if Points(lo, hi, samplesPerRev) < 1 then Err(TooSmall)
      else
        PointsNeedRate(lo, hi, samplesPerRev);
        var rev := Grid(lo, samplesPerRev, Points(lo, hi, samplesPerRev));
        var a, b := at(rev, revA, sigA), at(rev, revB, sigB);
        Ok(Aligned(rev, a, b, Differences(a, b)))
  }

  method Subtract(a: array<real>, b: array<real>) returns (diff: array<real>)
    requires a.Length == b.Length
    ensures fresh(diff) && diff[..] == Differences(a[..], b[..])
  {
    diff := new real[a.Length](_ => 0.0);
    for i := 0 to a.Length
      invariant forall k :: 0 <= k < i ==> diff[k] == a[k] - b[k]
    {
      diff[i] := a[i] - b[i];
    }
  }

  method AlignAndDiff(revA: seq<real>, sigA: seq<real>, revB: seq<real>, sigB: seq<real>, samplesPerRev: real, range: Option<(real, real)>,
                      ghost at: Interpolation)
    returns (r: Result<Aligned, Error>)
    requires Cut(revA) && Cut(revB) && ReadsKnots(at)
    ensures r == AlignedDiff(at, revA, sigA, revB, sigB, samplesPerRev, range)
  {
    if |revA| != |sigA| || |revB| != |sigB| {
      return Err(LengthMismatch);
    }
    var lo, hi := Low(revA[0], revB[0], range), High(revA[|revA| - 1], revB[|revB| - 1], range);
    if hi <= lo {
      return Err(NoOverlap);
    }
    var n := Points(lo, hi, samplesPerRev);
    if n < 1 {
      return Err(TooSmall);
    }
    PointsNeedRate(lo, hi, samplesPerRev);
    var rev := Grid(lo, samplesPerRev, n);
    GridAscends(lo, samplesPerRev, n);
    var a := Interp(rev, revA, sigA);
    var b := Interp(rev, revB, sigB);
    var diff := Subtract(a, b);
    return Ok(Aligned(rev, a[..], b[..], diff[..]));
  }

  function Negated(d: seq<real>): (n: seq<real>)
    ensures |n| == |d| && forall i :: 0 <= i < |d| ==> n[i] == -d[i]
  {
    seq(|d|, i requires 0 <= i < |d| => -d[i])
  }

  // The same result with the two cuts exchanged.
  function Swapped(r: Result<Aligned, Error>): Result<Aligned, Error> {
    match r
    case Ok(x) => Ok(Aligned(x.rev, x.b, x.a, Negated(x.diff)))
    case Err(e) => Err(e)
  }

  // Antisymmetric in the two cuts, refusals included, however a signal is read and whether or not the bases ascend.
  lemma DiffIsAntisymmetric(at: Interpolation, revA: seq<real>, sigA: seq<real>, revB: seq<real>, sigB: seq<real>, samplesPerRev: real,
                            range: Option<(real, real)>)
    requires revA != [] && revB != [] && OnePerQuery(at)
    ensures AlignedDiff(at, revB, sigB, revA, sigA, samplesPerRev, range) == Swapped(AlignedDiff(at, revA, sigA, revB, sigB, samplesPerRev, range))
  {
    var r, s := AlignedDiff(at, revA, sigA, revB, sigB, samplesPerRev, range), AlignedDiff(at, revB, sigB, revA, sigA, samplesPerRev, range);
    if r.Ok? {
      assert s.value.rev == r.value.rev;
      assert s.value.diff == Negated(r.value.diff);
    }
  }

  // A cut against itself differs by nothing.
  lemma SameCutIsZero(at: Interpolation, rev: seq<real>, sig: seq<real>, samplesPerRev: real, range: Option<(real, real)>)
    requires rev != [] && OnePerQuery(at)
    ensures var r := AlignedDiff(at, rev, sig, rev, sig, samplesPerRev, range);
            r.Ok? ==> forall i :: 0 <= i < |r.value.diff| ==> r.value.diff[i] == 0.0
  {
  }

  // ---- diffEnvelopes ----

  const MAX_DIFF_POINTS := 4000

  datatype Envelope = Envelope(t: seq<real>, min: seq<real>, max: seq<real>)

  datatype Line = Line(x: seq<real>, y: seq<real>)

  datatype Diff = Diff(t: seq<real>, diff: seq<real>, mean: real, rms: real)

  // How signals are read, and Math.sqrt.
  datatype Numerics = Numerics(at: Interpolation, root: real -> real)

  function MidLine(s: Envelope): (l: Option<Line>)
    ensures l.Some? ==> |l.value.x| == |l.value.y| >= 2 && l.value.x <= s.t && l.value.x[0] < l.value.x[|l.value.x| - 1]
  {
    var n := AtMost(|s.t|, AtMost(|s.min|, |s.max|));
    if n < 2 || s.t[n - 1] <= s.t[0] then None
    else Some(Line(s.t[..n], seq(n, i requires 0 <= i < n => (s.min[i] + s.max[i]) / 2.0)))
  }

  function Density(l: Line): real
    requires l.x != [] && l.x[0] < l.x[|l.x| - 1]
  {
    |l.x| as real / (l.x[|l.x| - 1] - l.x[0])
  }

  function Squares(d: seq<real>): (q: seq<real>)
    ensures |q| == |d| && forall i :: 0 <= i < |d| ==> q[i] == d[i] * d[i]
  {
    seq(|d|, i requires 0 <= i < |d| => d[i] * d[i])
  }

  function Mean(d: seq<real>): real {
    Sum(d) / if d == [] then 1.0 else |d| as real
  }

  function Overlap(a: Line, b: Line, window: Option<(real, real)>): (real, real)
    requires a.x != [] && b.x != []
  {
    (Low(a.x[0], b.x[0], window), High(a.x[|a.x| - 1], b.x[|b.x| - 1], window))
  }

  // The denser of the two traces, bounded.
  function Rate(a: Line, b: Line, lo: real, hi: real): real
    requires a.x != [] && a.x[0] < a.x[|a.x| - 1] && b.x != [] && b.x[0] < b.x[|b.x| - 1] && lo < hi
  {
    Min(Max(Density(a), Density(b)), MAX_DIFF_POINTS as real / (hi - lo))
  }

  predicate Usable(l: Line) {
    |l.x| == |l.y| && l.x != [] && l.x[0] < l.x[|l.x| - 1]
  }

  function DiffAt(num: Numerics, a: Line, b: Line, rate: real, range: Option<(real, real)>): Option<Diff>
    requires Usable(a) && Usable(b) && OnePerQuery(num.at)
  {
    match AlignedDiff(num.at, a.x, a.y, b.x, b.y, rate, range)
    case Ok(r) => Some(Diff(r.rev, r.diff, Mean(r.diff), num.root(Mean(Squares(r.diff)))))
    case Err(_) => None
  }

  function DiffLines(num: Numerics, a: Line, b: Line, window: Option<(real, real)>): Option<Diff>
    requires Usable(a) && Usable(b) && OnePerQuery(num.at)
  {
    var (lo, hi) := Overlap(a, b, window);
    if hi <= lo then None else DiffAt(num, a, b, Rate(a, b, lo, hi), if window.Some? then Some((lo, hi)) else None)
  }

  // current - reference, or nothing.
  function DiffEnvelopes(num: Numerics, current: Option<Envelope>, reference: Option<Envelope>, window: Option<(real, real)>): Option<Diff>
    requires OnePerQuery(num.at)
  {
    if current.None? || reference.None? then None
    else
      var a, b := MidLine(current.value), MidLine(reference.value);
      if a.None? || b.None? then None else DiffLines(num, a.value, b.value, window)
  }

  lemma RateIsBounded(span: real, rate: real, most: real)
    requires span > 0.0 && rate <= most / span
    ensures span * rate <= most
  {
    DivTimes(most, span);
    if rate < most / span {
      MulOrder(rate, most / span, span);
    }
  }

  // Passing the overlap on as the range changes nothing.
  lemma RangeAgain(a: Line, b: Line, window: Option<(real, real)>)
    requires Usable(a) && Usable(b)
    ensures var (lo, hi) := Overlap(a, b, window);
            var range := if window.Some? then Some((lo, hi)) else None;
            Low(a.x[0], b.x[0], range) == lo && High(a.x[|a.x| - 1], b.x[|b.x| - 1], range) == hi
  {
  }

  lemma AsManyAsPoints(num: Numerics, a: Line, b: Line, rate: real, range: Option<(real, real)>)
    requires Usable(a) && Usable(b) && OnePerQuery(num.at)
    ensures var d := DiffAt(num, a, b, rate, range);
            d.Some? ==> |d.value.diff| == |d.value.t| == Points(Low(a.x[0], b.x[0], range), High(a.x[|a.x| - 1], b.x[|b.x| - 1], range), rate) >= 1
  {
  }

  lemma FewPoints(a: Line, b: Line, lo: real, hi: real)
    requires Usable(a) && Usable(b) && lo < hi
    ensures Points(lo, hi, Rate(a, b, lo, hi)) <= MAX_DIFF_POINTS
  {
    RateIsBounded(hi - lo, Rate(a, b, lo, hi), MAX_DIFF_POINTS as real);
  }

  // At most MAX_DIFF_POINTS samples, however long or dense the recordings.
  lemma BoundedLines(num: Numerics, a: Line, b: Line, window: Option<(real, real)>)
    requires Usable(a) && Usable(b) && OnePerQuery(num.at)
    ensures var d := DiffLines(num, a, b, window); d.Some? ==> 1 <= |d.value.diff| == |d.value.t| <= MAX_DIFF_POINTS
  {
    var (lo, hi) := Overlap(a, b, window);
    if lo < hi {
      RangeAgain(a, b, window);
      AsManyAsPoints(num, a, b, Rate(a, b, lo, hi), if window.Some? then Some((lo, hi)) else None);
      FewPoints(a, b, lo, hi);
    }
  }

  lemma BoundedSamples(num: Numerics, current: Option<Envelope>, reference: Option<Envelope>, window: Option<(real, real)>)
    requires OnePerQuery(num.at)
    ensures var d := DiffEnvelopes(num, current, reference, window);
            d.Some? ==> 1 <= |d.value.diff| == |d.value.t| <= MAX_DIFF_POINTS
  {
    if current.Some? && reference.Some? && MidLine(current.value).Some? && MidLine(reference.value).Some? {
      BoundedLines(num, MidLine(current.value).value, MidLine(reference.value).value, window);
    }
  }

  lemma {:induction false} SumNegates(d: seq<real>)
    ensures Sum(Negated(d)) == -Sum(d)
  {
    if d != [] {
      SumNegates(d[..|d| - 1]);
      assert Negated(d)[..|d| - 1] == Negated(d[..|d| - 1]);
    }
  }

  lemma MeanNegates(d: seq<real>)
    ensures Mean(Negated(d)) == -Mean(d)
    ensures Squares(Negated(d)) == Squares(d)
  {
    SumNegates(d);
    QuotientNegates(Sum(d), if d == [] then 1.0 else |d| as real);
    forall i | 0 <= i < |d|
      ensures Squares(Negated(d))[i] == Squares(d)[i]
    {
      SquareNegates(d[i]);
    }
  }

  lemma SquareNegates(x: real)
    ensures -x * -x == x * x
  {
  }

  lemma QuotientNegates(a: real, n: real)
    requires n > 0.0
    ensures -a / n == -(a / n)
  {
  }

  function SwappedDiff(d: Option<Diff>): Option<Diff> {
    if d.Some? then Some(Diff(d.value.t, Negated(d.value.diff), -d.value.mean, d.value.rms)) else None
  }

  lemma DiffAtAntisymmetric(num: Numerics, a: Line, b: Line, rate: real, range: Option<(real, real)>)
    requires Usable(a) && Usable(b) && OnePerQuery(num.at)
    ensures DiffAt(num, b, a, rate, range) == SwappedDiff(DiffAt(num, a, b, rate, range))
  {
    DiffIsAntisymmetric(num.at, a.x, a.y, b.x, b.y, rate, range);
    var r := AlignedDiff(num.at, a.x, a.y, b.x, b.y, rate, range);
    if r.Ok? {
      MeanNegates(r.value.diff);
    }
  }

  // Exchanging the envelopes negates the trace and its mean, and keeps its grid and its rms.
  lemma EnvelopesAntisymmetric(num: Numerics, current: Option<Envelope>, reference: Option<Envelope>, window: Option<(real, real)>)
    requires OnePerQuery(num.at)
    ensures DiffEnvelopes(num, reference, current, window) == SwappedDiff(DiffEnvelopes(num, current, reference, window))
  {
    if current.Some? && reference.Some? && MidLine(current.value).Some? && MidLine(reference.value).Some? {
      LinesAntisymmetric(num, MidLine(current.value).value, MidLine(reference.value).value, window);
    }
  }

  lemma LinesAntisymmetric(num: Numerics, a: Line, b: Line, window: Option<(real, real)>)
    requires Usable(a) && Usable(b) && OnePerQuery(num.at)
    ensures DiffLines(num, b, a, window) == SwappedDiff(DiffLines(num, a, b, window))
  {
    var (lo, hi) := Overlap(a, b, window);
    assert Overlap(b, a, window) == (lo, hi);
    if lo < hi {
      assert Rate(b, a, lo, hi) == Rate(a, b, lo, hi);
      DiffAtAntisymmetric(num, a, b, Rate(a, b, lo, hi), if window.Some? then Some((lo, hi)) else None);
    }
  }
}
