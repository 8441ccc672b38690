/** What a difference shows. */
module CutDifference {
  // packages/force-plotting/src/compare.ts: what the difference of two cuts, or of two envelopes, shows.

  import opened Wrappers
  import opened Arith
  import opened Numpy
  import opened Compare

  // The first and the last place two cuts and the range have in common.
  predicate IsStart(lo: real, revA: seq<real>, revB: seq<real>, range: Option<(real, real)>)
    requires revA != [] && revB != []
  {
    && revA[0] <= lo && revB[0] <= lo && (range.Some? ==> range.value.0 <= lo)
    && (lo == revA[0] || lo == revB[0] || (range.Some? && lo == range.value.0))
  }

  predicate IsEnd(hi: real, revA: seq<real>, revB: seq<real>, range: Option<(real, real)>)
    requires revA != [] && revB != []
  {
    && hi <= revA[|revA| - 1] && hi <= revB[|revB| - 1] && (range.Some? ==> hi <= range.value.1)
    && (hi == revA[|revA| - 1] || hi == revB[|revB| - 1] || (range.Some? && hi == range.value.1))
  }

  // From lo on, `rate` places to the unit, as many as fit into the stretch up to hi.
  predicate Samples(rev: seq<real>, lo: real, hi: real, rate: real) {
    && |rev| as real <= (hi - lo) * rate < |rev| as real + 1.0
    && forall i :: 0 <= i < |rev| ==> lo <= rev[i] && (rev[i] - lo) * rate == i as real
  }

  // What is returned: on the common stretch, the first cut less the second at every place.
  ghost predicate Subtracts(r: Aligned, revA: seq<real>, sigA: seq<real>, revB: seq<real>, sigB: seq<real>)
    requires Cut(revA) && Cut(revB) && |revA| == |sigA| && |revB| == |sigB|
  {
    && |r.rev| == |r.a| == |r.b| == |r.diff| >= 1
    && forall i :: 0 <= i < |r.rev| ==>
         r.a[i] == Value(r.rev[i], revA, sigA) && r.b[i] == Value(r.rev[i], revB, sigB) && r.diff[i] == r.a[i] - r.b[i]
  }

  // Refused exactly for unequal lengths, for no common stretch, and for one shorter than one sample.
  lemma AlignedMeans(at: Interpolation, revA: seq<real>, sigA: seq<real>, revB: seq<real>, sigB: seq<real>, rate: real,
                     range: Option<(real, real)>) returns (lo: real, hi: real)
    requires Cut(revA) && Cut(revB) && ReadsKnots(at)
    ensures IsStart(lo, revA, revB, range) && IsEnd(hi, revA, revB, range)
    ensures var r := AlignedDiff(at, revA, sigA, revB, sigB, rate, range);
            && (r == Err(LengthMismatch) <==> |revA| != |sigA| || |revB| != |sigB|)
            && (|revA| == |sigA| && |revB| == |sigB| ==>
                  && (r == Err(NoOverlap) <==> hi <= lo)
                  && (r == Err(TooSmall) <==> lo < hi && TooShort(lo, hi, rate))
                  && (r.Ok? ==> Samples(r.value.rev, lo, hi, rate) && Subtracts(r.value, revA, sigA, revB, sigB)))
  {
    lo, hi := Low(revA[0], revB[0], range), High(revA[|revA| - 1], revB[|revB| - 1], range);
    PointsFew(lo, hi, rate);
    if |revA| == |sigA| && |revB| == |sigB| && lo < hi && Points(lo, hi, rate) >= 1 {
      PointsNeedRate(lo, hi, rate);
      GridSamples(lo, hi, rate, Grid(lo, rate, Points(lo, hi, rate)));
    }
  }

  // Less than one sample.
  predicate TooShort(lo: real, hi: real, rate: real) {
    (hi - lo) * rate < 1.0
  }

  lemma PointsFew(lo: real, hi: real, rate: real)
    ensures Points(lo, hi, rate) < 1 <==> TooShort(lo, hi, rate)
  {
  }

  lemma GridSamples(lo: real, hi: real, rate: real, rev: seq<real>)
    requires rate > 0.0 && Points(lo, hi, rate) >= 1 && rev == Grid(lo, rate, Points(lo, hi, rate))
    ensures Samples(rev, lo, hi, rate)
  {
    forall i | 0 <= i < |rev|
      ensures lo <= rev[i] && (rev[i] - lo) * rate == i as real
    {
      DivTimes(i as real, rate);
      QuotientsOrdered(0.0, i as real, rate);
    }
  }

  // ---- envelopes ----

  // Half way between the two sides of an envelope, as far as it has both.
  ghost predicate IsMidLine(l: Line, s: Envelope) {
    && |l.x| == |l.y| == AtMost(|s.t|, AtMost(|s.min|, |s.max|)) && l.x <= s.t
    && forall i :: 0 <= i < |l.y| ==> 2.0 * l.y[i] == s.min[i] + s.max[i]
  }

  lemma MidLineMeans(s: Envelope)
    ensures MidLine(s).Some? ==> Usable(MidLine(s).value) && IsMidLine(MidLine(s).value, s)
    ensures MidLine(s).None? <==> NoMidLine(s)
  {
  }

  // The mean is the sum shared out, and the root is taken of the mean of the squares.
  predicate Summarises(num: Numerics, d: Diff, square: real) {
    d.mean * |d.diff| as real == Sum(d.diff) && d.rms == num.root(square) && square * |d.diff| as real == Sum(Squares(d.diff))
  }

  lemma MeanSharesOut(d: seq<real>)
    requires d != []
    ensures Mean(d) * |d| as real == Sum(d)
  {
    DivTimes(Sum(d), |d| as real);
  }

  // The first trace less the second on the stretch, with its mean and root mean square.
  ghost predicate IsDifference(num: Numerics, d: Diff, a: Line, b: Line, lo: real, hi: real, rate: real, square: real)
    requires Cut(a.x) && Cut(b.x) && |a.x| == |a.y| && |b.x| == |b.y|
  {
    && |d.t| == |d.diff| && Samples(d.t, lo, hi, rate) && Summarises(num, d, square)
    && forall i :: 0 <= i < |d.t| ==> d.diff[i] == Value(d.t[i], a.x, a.y) - Value(d.t[i], b.x, b.y)
  }

  lemma SummaryHolds(num: Numerics, r: Aligned, a: Line, b: Line, lo: real, hi: real, rate: real) returns (square: real)
    requires Cut(a.x) && Cut(b.x) && |a.x| == |a.y| && |b.x| == |b.y|
    requires Samples(r.rev, lo, hi, rate) && Subtracts(r, a.x, a.y, b.x, b.y)
    ensures IsDifference(num, Summary(num, r), a, b, lo, hi, rate, square)
  {
    square := Mean(Squares(r.diff));
    SummaryShares(num, r, square);
  }

  function Summary(num: Numerics, r: Aligned): Diff {
    Diff(r.rev, r.diff, Mean(r.diff), num.root(Mean(Squares(r.diff))))
  }

  lemma SummaryShares(num: Numerics, r: Aligned, square: real)
    requires r.diff != [] && square == Mean(Squares(r.diff))
    ensures Summarises(num, Summary(num, r), square)
  {
    MeanSharesOut(r.diff);
    MeanSharesOut(Squares(r.diff));
  }

  lemma DiffIsSummary(num: Numerics, a: Line, b: Line, rate: real, range: Option<(real, real)>)
    requires Usable(a) && Usable(b) && OnePerQuery(num.at)
    ensures var r := AlignedDiff(num.at, a.x, a.y, b.x, b.y, rate, range);
            DiffAt(num, a, b, rate, range) == if r.Ok? then Some(Summary(num, r.value)) else None
  {
  }

  lemma AtRateMeans(num: Numerics, a: Line, b: Line, rate: real, range: Option<(real, real)>, lo: real, hi: real) returns (square: real)
    requires Usable(a) && Usable(b) && Cut(a.x) && Cut(b.x) && ReadsKnots(num.at) && lo < hi
    requires lo == Low(a.x[0], b.x[0], range) && hi == High(a.x[|a.x| - 1], b.x[|b.x| - 1], range)
    ensures DiffAt(num, a, b, rate, range).None? <==> TooShort(lo, hi, rate)
    ensures DiffAt(num, a, b, rate, range).Some? ==> IsDifference(num, DiffAt(num, a, b, rate, range).value, a, b, lo, hi, rate, square)
  {
    square := 0.0;
    DiffIsSummary(num, a, b, rate, range);
    RefusedWhenShort(num.at, a, b, rate, range, lo, hi);
    if !TooShort(lo, hi, rate) {
      AlignedHolds(num.at, a, b, rate, range, lo, hi);
      square := SummaryHolds(num, AlignedDiff(num.at, a.x, a.y, b.x, b.y, rate, range).value, a, b, lo, hi, rate);
    }
  }

  lemma RefusedWhenShort(at: Interpolation, a: Line, b: Line, rate: real, range: Option<(real, real)>, lo: real, hi: real)
    requires Usable(a) && Usable(b) && OnePerQuery(at) && lo < hi
    requires lo == Low(a.x[0], b.x[0], range) && hi == High(a.x[|a.x| - 1], b.x[|b.x| - 1], range)
    ensures AlignedDiff(at, a.x, a.y, b.x, b.y, rate, range).Err? <==> TooShort(lo, hi, rate)
  {
    PointsFew(lo, hi, rate);
  }

  lemma AlignedHolds(at: Interpolation, a: Line, b: Line, rate: real, range: Option<(real, real)>, lo: real, hi: real)
    requires Usable(a) && Usable(b) && Cut(a.x) && Cut(b.x) && ReadsKnots(at)
    requires lo == Low(a.x[0], b.x[0], range) && hi == High(a.x[|a.x| - 1], b.x[|b.x| - 1], range)
    requires AlignedDiff(at, a.x, a.y, b.x, b.y, rate, range).Ok?
    ensures var r := AlignedDiff(at, a.x, a.y, b.x, b.y, rate, range).value;
            Samples(r.rev, lo, hi, rate) && Subtracts(r, a.x, a.y, b.x, b.y)
  {
    PointsNeedRate(lo, hi, rate);
    GridSamples(lo, hi, rate, Grid(lo, rate, Points(lo, hi, rate)));
  }

  // Of two traces with ascending times, on the stretch they and the window have in common.
  lemma LinesMean(num: Numerics, a: Line, b: Line, window: Option<(real, real)>) returns (lo: real, hi: real, rate: real, square: real)
    requires Usable(a) && Usable(b) && Cut(a.x) && Cut(b.x) && ReadsKnots(num.at)
    ensures IsStart(lo, a.x, b.x, window) && IsEnd(hi, a.x, b.x, window)
    ensures hi <= lo ==> DiffLines(num, a, b, window).None?
    ensures lo < hi ==> IsDenser(a, b, lo, hi, rate) && (DiffLines(num, a, b, window).None? <==> TooShort(lo, hi, rate))
    ensures DiffLines(num, a, b, window).Some? ==> IsDifference(num, DiffLines(num, a, b, window).value, a, b, lo, hi, rate, square)
  {
    lo, hi := Low(a.x[0], b.x[0], window), High(a.x[|a.x| - 1], b.x[|b.x| - 1], window);
    rate, square := 0.0, 0.0;
    if lo < hi {
      rate := Rate(a, b, lo, hi);
      DenserRate(a, b, lo, hi);
      square := WindowedMeans(num, a, b, window, lo, hi, rate);
    }
  }

  lemma WindowedMeans(num: Numerics, a: Line, b: Line, window: Option<(real, real)>, lo: real, hi: real, rate: real) returns (square: real)
    requires Usable(a) && Usable(b) && Cut(a.x) && Cut(b.x) && ReadsKnots(num.at) && lo < hi
    requires lo == Low(a.x[0], b.x[0], window) && hi == High(a.x[|a.x| - 1], b.x[|b.x| - 1], window) && rate == Rate(a, b, lo, hi)
    ensures DiffLines(num, a, b, window).None? <==> TooShort(lo, hi, rate)
    ensures DiffLines(num, a, b, window).Some? ==> IsDifference(num, DiffLines(num, a, b, window).value, a, b, lo, hi, rate, square)
  {
    RangeAgain(a, b, window);
    square := AtRateMeans(num, a, b, rate, if window.Some? then Some((lo, hi)) else None, lo, hi);
  }

  // The rate of the denser of the two traces, or the lower one at which 4000 samples fill the stretch.
  predicate IsDenser(a: Line, b: Line, lo: real, hi: real, rate: real)
    requires Usable(a) && Usable(b)
  {
    if rate < Density(a) || rate < Density(b) then rate * (hi - lo) == 4000.0
    else rate * (hi - lo) <= 4000.0 && (rate == Density(a) || rate == Density(b))
  }

  lemma DenserRate(a: Line, b: Line, lo: real, hi: real)
    requires Usable(a) && Usable(b) && lo < hi
    ensures IsDenser(a, b, lo, hi, Rate(a, b, lo, hi))
  {
    DivTimes(4000.0, hi - lo);
    MulOrder(Rate(a, b, lo, hi), 4000.0 / (hi - lo), hi - lo);
  }

  predicate NoMidLine(s: Envelope) {
    var n := AtMost(|s.t|, AtMost(|s.min|, |s.max|)); n < 2 || s.t[n - 1] <= s.t[0]
  }

  // The mid-line of the current envelope less that of the reference, or nothing.
  lemma EnvelopesMean(num: Numerics, current: Envelope, reference: Envelope, window: Option<(real, real)>)
    returns (a: Line, b: Line, lo: real, hi: real, rate: real, square: real)
    requires Ascending(current.t) && Ascending(reference.t) && ReadsKnots(num.at) && !NoMidLine(current) && !NoMidLine(reference)
    ensures IsMidLine(a, current) && IsMidLine(b, reference) && Usable(a) && Usable(b) && Cut(a.x) && Cut(b.x)
    ensures IsStart(lo, a.x, b.x, window) && IsEnd(hi, a.x, b.x, window) && (lo < hi ==> IsDenser(a, b, lo, hi, rate))
    ensures var d := DiffEnvelopes(num, Some(current), Some(reference), window);
            && (d.None? <==> hi <= lo || TooShort(lo, hi, rate))
            && (d.Some? ==> IsDifference(num, d.value, a, b, lo, hi, rate, square))
  {
    MidLineMeans(current);
    MidLineMeans(reference);
    a, b := MidLine(current).value, MidLine(reference).value;
    lo, hi, rate, square := LinesMean(num, a, b, window);
  }

  // A missing envelope, or one that spans no time, leaves nothing to compare.
  lemma NothingToCompare(num: Numerics, current: Option<Envelope>, reference: Option<Envelope>, window: Option<(real, real)>)
    requires OnePerQuery(num.at)
    requires current.None? || reference.None? || NoMidLine(current.value) || NoMidLine(reference.value)
    ensures DiffEnvelopes(num, current, reference, window).None?
  {
  }
}
