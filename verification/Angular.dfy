/** Equal angles, and averaging by phase. */
module Angular {
  // scripts/diag/angular.py

  import opened Wrappers
  import opened Numpy
  import opened Arith

  datatype AngularError = BadShape | TooShort | NotMonotone | BadRate | SpanTooShort

  predicate NonDecreasing(s: seq<real>) {
    forall i :: 0 < i < |s| ==> s[i - 1] <= s[i]
  }

  function GridSize(revs: seq<real>, rate: int): int
    requires |revs| >= 2
  {
    ((revs[|revs| - 1] - revs[0]) * rate as real).Floor
  }

  function Grid(r0: real, rate: int, n: nat): (g: seq<real>)
    requires rate >= 1
    ensures |g| == n
  {
    seq(n, i => r0 + i as real / rate as real)
  }

  function AngularResample(revs: seq<real>, sig: seq<real>, rate: int): (r: Result<(seq<real>, seq<real>), AngularError>)
    ensures r.Ok? ==> |r.value.0| == |r.value.1| >= 1
  {
    if |revs| != |sig| then Err(BadShape)
    else if |revs| < 2 then Err(TooShort)
    else if !NonDecreasing(revs) then Err(NotMonotone)
    else if rate < 1 then Err(BadRate)
    else
      var n := GridSize(revs, rate);
      if n < 1 then Err(SpanTooShort)
      else
        var grid := Grid(revs[0], rate, n);
        Ok((grid, seq(n, i requires 0 <= i < n => Interp(grid[i], revs, sig))))
  }

  // The grid starts at the first angle and stays strictly inside the recorded span.
  lemma {:induction false} GridInsideSpan(revs: seq<real>, sig: seq<real>, rate: int, i: nat)
    requires AngularResample(revs, sig, rate).Ok?
    requires i < |AngularResample(revs, sig, rate).value.0|
    ensures revs[0] <= AngularResample(revs, sig, rate).value.0[i] < revs[|revs| - 1]
    ensures i + 1 == |AngularResample(revs, sig, rate).value.0| ==>
      revs[|revs| - 1] <= AngularResample(revs, sig, rate).value.0[i] + 2.0 / rate as real
  {
    var span, k, n := revs[|revs| - 1] - revs[0], rate as real, GridSize(revs, rate);
    StepInsideSpan(span, k, n, i);
    assert AngularResample(revs, sig, rate).value.0[i] == revs[0] + i as real / k;
  }

  lemma StepInsideSpan(span: real, k: real, n: nat, i: nat)
    requires k > 0.0 && i < n == (span * k).Floor
    ensures 0.0 <= i as real / k < span
    ensures i + 1 == n ==> span <= i as real / k + 2.0 / k
  {
    var step, two := i as real / k, 2.0 / k;
    DivTimes(i as real, k);
    DivTimes(2.0, k);
    assert step * k < span * k;
    MulOrder(step, span, k);
    MulOrder(0.0, step, k);
    assert (step + two) * k == step * k + two * k;
    MulOrder(span, step + two, k);
  }

  lemma {:induction false} NonDecreasingPairs(s: seq<real>, i: nat, k: nat)
    requires NonDecreasing(s) && i <= k < |s|
    ensures s[i] <= s[k]
  {
    if i < k {
      NonDecreasingPairs(s, i, k - 1);
    }
  }

  // vals follows raw: at every angle it lies on the straight line between the two samples around it.
  ghost predicate Interpolates(revs: seq<real>, raw: seq<real>, angles: seq<real>, vals: seq<real>) {
    && |raw| == |revs| && |vals| == |angles|
    && forall i, j :: 0 <= i < |angles| && 0 <= j < |revs| - 1 && revs[j] <= angles[i] < revs[j + 1] ==>
         OnChord(revs[j], raw[j], revs[j + 1], raw[j + 1], angles[i], vals[i])
  }

  // As many steps of 1 / rate from the first angle on as fit into the span.
  predicate Equispaced(angles: seq<real>, revs: seq<real>, rate: int) {
    && |revs| >= 2 && rate >= 1
    && |angles| as real <= (revs[|revs| - 1] - revs[0]) * rate as real < |angles| as real + 1.0
    && forall i :: 0 <= i < |angles| ==> revs[0] <= angles[i] < revs[|revs| - 1] && (angles[i] - revs[0]) * rate as real == i as real
  }

  lemma ResampleInterpolates(revs: seq<real>, raw: seq<real>, rate: int)
    requires AngularResample(revs, raw, rate).Ok?
    ensures Interpolates(revs, raw, AngularResample(revs, raw, rate).value.0, AngularResample(revs, raw, rate).value.1)
  {
    var r := AngularResample(revs, raw, rate).value;
    forall i, k | 0 <= i < k < |revs|
      ensures revs[i] <= revs[k]
    {
      NonDecreasingPairs(revs, i, k);
    }
    forall i, j | 0 <= i < |r.0| && 0 <= j < |revs| - 1 && revs[j] <= r.0[i] < revs[j + 1]
      ensures OnChord(revs[j], raw[j], revs[j + 1], raw[j + 1], r.0[i], r.1[i])
    {
      InterpOnChord(r.0[i], revs, raw, j);
    }
  }

  lemma GridEquispaced(revs: seq<real>, raw: seq<real>, rate: int)
    requires AngularResample(revs, raw, rate).Ok?
    ensures Equispaced(AngularResample(revs, raw, rate).value.0, revs, rate)
  {
    var g := AngularResample(revs, raw, rate).value.0;
    forall i | 0 <= i < |g|
      ensures revs[0] <= g[i] < revs[|revs| - 1] && (g[i] - revs[0]) * rate as real == i as real
    {
      GridInsideSpan(revs, raw, rate, i);
      DivTimes(i as real, rate as real);
    }
  }

  // A signal that is a linear function of the angle stays that function.
  lemma LineStays(revs: seq<real>, raw: seq<real>, angles: seq<real>, vals: seq<real>, i: nat, a: real, b: real)
    requires Interpolates(revs, raw, angles, vals) && i < |angles| && |revs| >= 2 && revs[0] <= angles[i] < revs[|revs| - 1]
    requires forall j :: 0 <= j < |revs| ==> raw[j] == a * revs[j] + b
    ensures vals[i] == a * angles[i] + b
  {
    var j := Around(revs, angles[i], |revs| - 1);
    OnlyOnLine(revs[j], revs[j + 1], angles[i], vals[i], a, b);
  }

  // The samples around an angle within the span.
  lemma {:induction false} Around(revs: seq<real>, x: real, hi: nat) returns (j: nat)
    requires 0 < hi < |revs| && revs[0] <= x < revs[hi]
    ensures j < hi && revs[j] <= x < revs[j + 1]
  {
    if revs[hi - 1] <= x {
      j := hi - 1;
    } else {
      j := Around(revs, x, hi - 1);
    }
  }

  lemma OnlyOnLine(x0: real, x1: real, x: real, y: real, a: real, b: real)
    requires x0 < x1 && OnChord(x0, a * x0 + b, x1, a * x1 + b, x, y)
    ensures y == a * x + b
  {
    var w, e := x1 - x0, y - (a * x + b);
    assert a * x1 + b - (a * x0 + b) == a * w;
    assert a * (x - x0) == a * x - a * x0;
    assert a * w * (x - x0) == (a * (x - x0)) * w;
    assert e * w == 0.0;
    assert e == 0.0;
  }

  // Sum of one phase over the first `revs` revolutions.
  function PhaseSum(sig: seq<real>, rate: nat, phase: nat, revs: nat): real
    requires phase < rate && revs * rate <= |sig|
  {
    if revs == 0 then 0.0
    else
      assert (revs - 1) * rate + rate == revs * rate;
      PhaseSum(sig, rate, phase, revs - 1) + sig[(revs - 1) * rate + phase]
  }

  function WholeRevolutions(n: nat, rate: int): nat {
    if rate < 1 then 0 else n / rate
  }

  lemma WholeFits(n: nat, rate: int)
    ensures WholeRevolutions(n, rate) * rate <= n || rate < 1
    ensures rate >= 1 ==> n < WholeRevolutions(n, rate) * rate + rate
  {
  }

  function Signature(sig: seq<real>, rate: nat, whole: nat): (s: seq<real>)
    requires whole >= 1 && whole * rate <= |sig|
    ensures |s| == rate
  {
    seq(rate, p requires 0 <= p < rate => PhaseSum(sig, rate, p, whole) / whole as real)
  }

  lemma {:induction false} PhaseSumOfZero(sig: seq<real>, rate: nat, phase: nat, revs: nat)
    requires phase < rate && revs * rate <= |sig| && forall i :: 0 <= i < |sig| ==> sig[i] == 0.0
    ensures PhaseSum(sig, rate, phase, revs) == 0.0
  {
    if revs > 0 {
      assert (revs - 1) * rate + rate == revs * rate;
      PhaseSumOfZero(sig, rate, phase, revs - 1);
    }
  }

  // Every sample counts once, towards its own phase, if its revolution is complete.
  lemma {:induction false} SampleCountsOnce(sig: seq<real>, rate: nat, phase: nat, revs: nat, i: nat, h: real)
    requires phase < rate && revs * rate <= |sig| && i < |sig|
    ensures PhaseSum(sig[i := sig[i] + h], rate, phase, revs) ==
            PhaseSum(sig, rate, phase, revs) + if i < revs * rate && i % rate == phase then h else 0.0
  {
    if revs > 0 {
      var at := (revs - 1) * rate + phase;
      assert (revs - 1) * rate + rate == revs * rate;
      SampleCountsOnce(sig, rate, phase, revs - 1, i, h);
      DivModUnique(at, rate, revs - 1, phase);
      if (revs - 1) * rate <= i < revs * rate {
        DivModUnique(i, rate, revs - 1, i - (revs - 1) * rate);
        assert i % rate == phase <==> i == at;
      }
    }
  }

  // (signature, residual); the residual is cut to whole revolutions.
  function TsaSplit(sig: seq<real>, rate: int): (r: Result<(seq<real>, seq<real>), AngularError>)
    ensures r.Ok? <==> WholeRevolutions(|sig|, rate) >= 1
    ensures r.Ok? ==> rate >= 1 && |r.value.0| == rate
    ensures r.Ok? ==> |r.value.1| == WholeRevolutions(|sig|, rate) * rate && rate <= |r.value.1| <= |sig|
    ensures r.Ok? ==> r.value.0 == Signature(sig, rate, WholeRevolutions(|sig|, rate))
    ensures r.Ok? ==> forall i :: 0 <= i < |r.value.1| ==> r.value.1[i] == sig[i] - r.value.0[i % rate]
  {
    var whole := WholeRevolutions(|sig|, rate);
    if whole < 1 then Err(TooShort)
    else
      WholeFits(|sig|, rate);
      MulIncludesOne(whole, rate);
      var mean := Signature(sig, rate, whole);
      Ok((mean, seq(whole * rate, i requires 0 <= i < whole * rate => sig[i] - mean[i % rate])))
  }

  lemma {:induction false} ResidualPhaseSum(sig: seq<real>, mean: seq<real>, rest: seq<real>, rate: nat, phase: nat, revs: nat)
    requires |mean| == rate && phase < rate && revs * rate <= |rest| <= |sig|
    requires forall i :: 0 <= i < |rest| ==> rest[i] == sig[i] - mean[i % rate]
    ensures PhaseSum(rest, rate, phase, revs) == PhaseSum(sig, rate, phase, revs) - revs as real * mean[phase]
  {
    if revs > 0 {
      assert (revs - 1) * rate + rate == revs * rate;
      ResidualPhaseSum(sig, mean, rest, rate, phase, revs - 1);
      DivModUnique((revs - 1) * rate + phase, rate, revs - 1, phase);
      assert rest[(revs - 1) * rate + phase] == sig[(revs - 1) * rate + phase] - mean[phase];
      assert revs as real * mean[phase] == (revs - 1) as real * mean[phase] + mean[phase];
    }
  }

  lemma SignatureIsMean(sig: seq<real>, mean: seq<real>, rate: nat, whole: nat, phase: nat)
    requires whole >= 1 && whole * rate <= |sig| && phase < rate && mean == Signature(sig, rate, whole)
    ensures whole as real * mean[phase] == PhaseSum(sig, rate, phase, whole)
  {
    DivTimes(PhaseSum(sig, rate, phase, whole), whole as real);
  }

  // What does not repeat averages out: every phase of the residual sums to zero over the cut.
  lemma ResidualZeroMean(sig: seq<real>, rate: nat, phase: nat)
    requires TsaSplit(sig, rate).Ok? && phase < rate
    ensures PhaseSum(TsaSplit(sig, rate).value.1, rate, phase, WholeRevolutions(|sig|, rate)) == 0.0
  {
    var (mean, rest) := TsaSplit(sig, rate).value;
    var whole := WholeRevolutions(|sig|, rate);
    SignatureIsMean(sig, mean, rate, whole, phase);
    ResidualPhaseSum(sig, mean, rest, rate, phase, whole);
  }

  // Signature plus residual is the signal wherever the residual is defined, and less than one
  // revolution is left over.
  lemma TsaReconstructs(sig: seq<real>, rate: nat, i: nat)
    requires TsaSplit(sig, rate).Ok? && i < |TsaSplit(sig, rate).value.1|
    ensures |TsaSplit(sig, rate).value.1| <= |sig| < |TsaSplit(sig, rate).value.1| + rate
    ensures sig[i] == TsaSplit(sig, rate).value.0[i % rate] + TsaSplit(sig, rate).value.1[i]
  {
    WholeFits(|sig|, rate);
  }
}
