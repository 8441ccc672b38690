/** What the steps compute. */
module StepValues {
  // scripts/diag/ops.py: what the columns of a registered step hold.

  import opened Wrappers
  import opened Arith
  import opened Numpy
  import opened Recipe
  import opened Registry
  import opened Runner
  import opened Ops
  import opened CheckerSoundness
  import opened Angular

  // ---- the steps on the angular grid ----

  // int() of the parameter, or the default.
  predicate IsRate(p: Params, rate: int) {
    if SamplesPerRev in p then IntOf(p[SamplesPerRev]) == Ok(rate) else rate == 256
  }

  predicate IsChannel(p: Params, channel: Col) {
    if Channel in p then p[Channel] == PName(channel) else channel == Fp
  }

  // The columns of a grid: equally spaced angles, and each column follows its own recorded one, or the channel.
  ghost predicate GridFollows(cols: Columns<real>, out: Columns<real>, rate: int, channel: Col) {
    && Revs in cols && TRaw in cols && XRaw in cols && YRaw in cols && channel in cols
    && out.Keys == {T, Rev, X, Y, Sig}
    && Equispaced(out[Rev], cols[Revs], rate)
    && Interpolates(cols[Revs], cols[TRaw], out[Rev], out[T])
    && Interpolates(cols[Revs], cols[XRaw], out[Rev], out[X])
    && Interpolates(cols[Revs], cols[YRaw], out[Rev], out[Y])
    && Interpolates(cols[Revs], cols[channel], out[Rev], out[Sig])
  }

  lemma ResampledColumns(lib: Library, p: Params, cols: Columns<real>, ins: Resolved) returns (rate: int, channel: Col)
    requires OpStep(lib, AngularResample, p, cols, ins).Ok?
    ensures IsRate(p, rate) && IsChannel(p, channel)
    ensures GridFollows(cols, OpStep(lib, AngularResample, p, cols, ins).value.cols, rate, channel)
  {
    var own := Restrict(p, AngularResample);
    rate, channel := Rate(own).value, ChannelOf(own).value;
    assert AngularStep(own, cols) == OpStep(lib, AngularResample, p, cols, ins);
    ResampleInterpolates(cols[Revs], cols[TRaw], rate);
    ResampleInterpolates(cols[Revs], cols[XRaw], rate);
    ResampleInterpolates(cols[Revs], cols[YRaw], rate);
    ResampleInterpolates(cols[Revs], cols[channel], rate);
    GridEquispaced(cols[Revs], cols[channel], rate);
  }

  // The recorded column behind a column of the grid.
  predicate IsSource(raw: Col, c: Col, channel: Col) {
    (c == T && raw == TRaw) || (c == X && raw == XRaw) || (c == Y && raw == YRaw) || (c == Sig && raw == channel)
  }

  // What is linear in the angle stays so, each column with its own coefficients.
  lemma LinearColumnStays(cols: Columns<real>, out: Columns<real>, rate: int, channel: Col, raw: Col, c: Col, a: real, b: real)
    requires GridFollows(cols, out, rate, channel) && IsSource(raw, c, channel)
    requires |cols[raw]| == |cols[Revs]| && forall j :: 0 <= j < |cols[raw]| ==> cols[raw][j] == a * cols[Revs][j] + b
    ensures |out[c]| == |out[Rev]| && forall i :: 0 <= i < |out[c]| ==> out[c][i] == a * out[Rev][i] + b
  {
    LineFollows(cols[Revs], cols[raw], rate, out[Rev], out[c], a, b);
  }

  lemma LineFollows(revs: seq<real>, raw: seq<real>, rate: int, angles: seq<real>, vals: seq<real>, a: real, b: real)
    requires Equispaced(angles, revs, rate) && Interpolates(revs, raw, angles, vals)
    requires forall j :: 0 <= j < |revs| ==> raw[j] == a * revs[j] + b
    ensures forall i :: 0 <= i < |vals| ==> vals[i] == a * angles[i] + b
  {
    forall i | 0 <= i < |vals|
      ensures vals[i] == a * angles[i] + b
    {
      LineStays(revs, raw, angles, vals, i, a, b);
    }
  }

  // The signal less the mean of its phase, over the whole revolutions.
  ghost predicate LessPhaseMean(sig: seq<real>, resid: seq<real>, rate: nat, whole: nat) {
    rate >= 1 && whole >= 1 && |resid| == whole * rate <= |sig| < |resid| + rate && DifferByMean(sig, resid, rate, whole)
  }

  ghost predicate DifferByMean(sig: seq<real>, resid: seq<real>, rate: nat, whole: nat)
    requires rate >= 1 && |resid| == whole * rate <= |sig|
  {
    forall i :: 0 <= i < |resid| ==> IsMean(whole as real, sig[i] - resid[i], PhaseSum(sig, rate, i % rate, whole))
  }

  predicate IsMean(n: real, m: real, sum: real) {
    n * m == sum
  }

  // samples_per_rev where it is given and not zero, and otherwise the rate read off the grid.
  predicate IsTsaRate(p: Params, cols: Columns<real>, rate: int) {
    if SamplesPerRev in p && !p[SamplesPerRev].PNull? && IntOf(p[SamplesPerRev]) != Ok(0) then IntOf(p[SamplesPerRev]) == Ok(rate)
    else Rev in cols && |cols[Rev]| >= 2 && cols[Rev][0] != cols[Rev][1] && rate == Round(1.0 / (cols[Rev][1] - cols[Rev][0]))
  }

  lemma ResidualColumn(lib: Library, p: Params, cols: Columns<real>, ins: Resolved) returns (rate: nat, whole: nat)
    requires OpStep(lib, Tsa, p, cols, ins).Ok?
    ensures var out := OpStep(lib, Tsa, p, cols, ins).value;
            && IsTsaRate(p, cols, rate) && Sig in cols && out.cols.Keys == {TsaResid}
            && LessPhaseMean(cols[Sig], out.cols[TsaResid], rate, whole)
            && out.cut == Some(whole * rate)
  {
    var own := Restrict(p, Tsa);
    TsaRateIs(p, cols);
    rate, whole := ResidualOf(own, cols);
    assert TsaStep(own, cols) == OpStep(lib, Tsa, p, cols, ins);
  }

  lemma TsaRateIs(p: Params, cols: Columns<real>)
    requires TsaRate(Restrict(p, Tsa), cols).Ok?
    ensures IsTsaRate(p, cols, TsaRate(Restrict(p, Tsa), cols).value)
  {
  }

  lemma ResidualOf(own: Params, cols: Columns<real>) returns (rate: nat, whole: nat)
    requires TsaStep(own, cols).Ok?
    ensures TsaRate(own, cols) == Ok(rate) && Sig in cols && TsaStep(own, cols).value.cols.Keys == {TsaResid}
    ensures LessPhaseMean(cols[Sig], TsaStep(own, cols).value.cols[TsaResid], rate, whole)
    ensures TsaStep(own, cols).value.cut == Some(whole * rate)
  {
    rate, whole := TsaRate(own, cols).value, WholeRevolutions(|cols[Sig]|, TsaRate(own, cols).value);
    PhaseMeans(cols[Sig], rate, whole);
  }

  lemma PhaseMeans(sig: seq<real>, rate: nat, whole: nat)
    requires TsaSplit(sig, rate).Ok? && whole == WholeRevolutions(|sig|, rate)
    ensures LessPhaseMean(sig, TsaSplit(sig, rate).value.1, rate, whole)
  {
    WholeFits(|sig|, rate);
    MeansDiffer(sig, TsaSplit(sig, rate).value.0, TsaSplit(sig, rate).value.1, rate, whole);
  }

  lemma MeansDiffer(sig: seq<real>, mean: seq<real>, resid: seq<real>, rate: nat, whole: nat)
    requires whole >= 1 && rate >= 1 && |resid| == whole * rate <= |sig| && mean == Signature(sig, rate, whole)
    requires forall i :: 0 <= i < |resid| ==> resid[i] == sig[i] - mean[i % rate]
    ensures DifferByMean(sig, resid, rate, whole)
  {
    forall i | 0 <= i < |resid|
      ensures IsMean(whole as real, sig[i] - resid[i], PhaseSum(sig, rate, i % rate, whole))
    {
      PhaseMean(sig, mean, rate, whole, i % rate);
      assert sig[i] - resid[i] == mean[i % rate];
    }
  }

  lemma PhaseMean(sig: seq<real>, mean: seq<real>, rate: nat, whole: nat, phase: nat)
    requires whole >= 1 && whole * rate <= |sig| && phase < rate && mean == Signature(sig, rate, whole)
    ensures IsMean(whole as real, mean[phase], PhaseSum(sig, rate, phase, whole))
  {
    SignatureIsMean(sig, mean, rate, whole, phase);
  }

  // ---- the envelope ----

  function FrequencyOf(p: Params): Option<real> {
    if FnHz in p && RealOf(p[FnHz]).Ok? && RealOf(p[FnHz]).value > 0.0 then Some(RealOf(p[FnHz]).value) else None
  }

  function FractionOf(p: Params): real {
    if BandwidthFrac in p && RealOf(p[BandwidthFrac]).Ok? then RealOf(p[BandwidthFrac]).value else 0.2
  }

  // The frequency lies below half the mean sample rate of t, which is 0 if t spans no time.
  predicate BelowNyquist(t: seq<real>, f: real) {
    if |t| > 1 && t[|t| - 1] > t[0] then 2.0 * f * (t[|t| - 1] - t[0]) < |t| as real else f < 0.0
  }

  // A positive frequency was given, and the upper edge of the band around it can be seen.
  predicate Computes(p: Params, t: seq<real>) {
    FrequencyOf(p).Some? && BelowNyquist(t, UpperEdge(FrequencyOf(p).value, FractionOf(p)))
  }

  lemma NyquistTest(t: seq<real>, f: real)
    ensures SampleRate(t) / 2.0 <= f <==> !BelowNyquist(t, f)
  {
    if SampleRate(t) > 0.0 {
      var q, span := SampleRate(t), t[|t| - 1] - t[0];
      DivTimes(|t| as real, span);
      MulOrder(2.0 * f, q, span);
    }
  }

  // Zeros at the length of the residual where nothing can be computed.
  lemma EnvelopeRefused(lib: Library, own: Params, cols: Columns<real>, ins: Resolved)
    requires EnvelopeStep(lib, own, cols, ins).Ok? && TRaw in cols && !Computes(own, cols[TRaw])
    ensures TsaResid in cols && EnvelopeStep(lib, own, cols, ins).value.cols == map[EnvBand := seq(|cols[TsaResid]|, i => 0.0)]
  {
    ComputesAsTested(own, cols[TRaw]);
  }

  lemma ComputesAsTested(own: Params, t: seq<real>)
    ensures Computes(own, t) <==>
              FrequencyOf(own).Some? && SampleRate(t) / 2.0 > UpperEdge(FrequencyOf(own).value, FractionOf(own))
  {
    if FrequencyOf(own).Some? {
      NyquistTest(t, UpperEdge(FrequencyOf(own).value, FractionOf(own)));
    }
  }

  // Otherwise the envelope of the channel, resampled to the grid and cut to the length of the residual.
  ghost predicate EnvelopeOnGrid(cols: Columns<real>, env: seq<real>, angles: seq<real>, vals: seq<real>, rate: int, out: seq<real>) {
    && {Revs, TsaResid} <= cols.Keys
    && Equispaced(angles, cols[Revs], rate) && Interpolates(cols[Revs], env, angles, vals)
    && out == if |vals| <= |cols[TsaResid]| then vals else vals[..|cols[TsaResid]|]
  }

  lemma EnvelopeComputed(lib: Library, own: Params, cols: Columns<real>, ins: Resolved)
    returns (env: seq<real>, angles: seq<real>, vals: seq<real>, channel: Col, rate: int)
    requires EnvelopeStep(lib, own, cols, ins).Ok? && TRaw in cols && Computes(own, cols[TRaw])
    ensures IsChannel(own, channel) && IsRate(own, rate) && channel in cols && |env| == |cols[channel]|
    ensures forall i :: 0 <= i < |env| ==> env[i] == lib.point(Envelope, channel, own, cols, ins, i)
    ensures var out := EnvelopeStep(lib, own, cols, ins).value.cols;
            out.Keys == {EnvBand} && EnvelopeOnGrid(cols, env, angles, vals, rate, out[EnvBand])
  {
    ComputesAsTested(own, cols[TRaw]);
    channel, rate := ChannelOf(own).value, Rate(own).value;
    env := Values(lib, Envelope, channel, own, cols, ins, |cols[channel]|);
    var r := Angular.AngularResample(cols[Revs], env, rate);
    angles, vals := r.value.0, r.value.1;
    ResampleInterpolates(cols[Revs], env, rate);
    GridEquispaced(cols[Revs], env, rate);
  }

  // ---- what a step declares ----

  // Two work dicts with the same columns of a set.
  predicate AgreeOn(a: Columns<real>, b: Columns<real>, these: set<Col>) {
    forall c :: c in these ==> (c in a <==> c in b) && (c in a && c in b ==> a[c] == b[c])
  }

  // The steps that are computed read nothing they do not declare.
  lemma DeclaredSuffices(lib: Library, op: Op, p: Params, a: Columns<real>, b: Columns<real>, ins: Resolved)
    requires op == AngularResample || op == Tsa
    requires AgreeOn(a, b, Needs(op))
    requires lib.raises(op, Restrict(p, op), a, ins) == lib.raises(op, Restrict(p, op), b, ins)
    ensures OpStep(lib, op, p, a, ins) == OpStep(lib, op, p, b, ins)
  {
    var own := Restrict(p, op);
    if op == Tsa {
      assert Column(a, Sig) == Column(b, Sig) && Column(a, Rev) == Column(b, Rev);
      assert TsaStep(own, a) == TsaStep(own, b);
    } else {
      AngularDeclared(own, a, b);
    }
  }

  lemma AngularDeclared(own: Params, a: Columns<real>, b: Columns<real>)
    requires AgreeOn(a, b, Needs(AngularResample))
    ensures AngularStep(own, a) == AngularStep(own, b)
  {
    assert Column(a, Revs) == Column(b, Revs) && Column(a, TRaw) == Column(b, TRaw);
    assert Column(a, XRaw) == Column(b, XRaw) && Column(a, YRaw) == Column(b, YRaw);
    assert Column(a, Fc) == Column(b, Fc) && Column(a, Ff) == Column(b, Ff) && Column(a, Fp) == Column(b, Fp);
  }

  // Whatever a step must have, and whatever a statistic reads, is declared.
  lemma ReadsAreDeclared(lib: Library, op: Op, p: Params, cols: Columns<real>, ins: Resolved)
    ensures Demands(op) <= Needs(op)
    ensures IsStatistic(op) ==> Read(lib, op, p, cols, ins) <= Needs(op)
  {
  }
}
