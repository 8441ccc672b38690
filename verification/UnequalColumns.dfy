/** Two recipes whose public columns differ in length, on a small recording. */
module UnequalColumns {
  // Both average one revolution at 256 samples; then one inverts a recorded column, and the other resamples again.

  import opened Wrappers
  import opened Recipe
  import opened Registry
  import opened Runner
  import opened Ops
  import opened CheckerSoundness
  import opened RecipeLengths
  import opened SmallRecording
  import Angular

  const TSA := Step(Some("c"), Tsa, true, map[], map[])
  const INVERT_FORCE := Step(Some("d"), Invert, true, map[Source := PName(Fx)], map[])
  const COARSE := Step(Some("d"), AngularResample, true, map[SamplesPerRev := PInt(1)], map[])

  function Averaging(last: Step): seq<Step> {
    [FRAME, RESAMPLE, TSA, last]
  }

  // Given to a step without a channel of its own.
  function WithChannel(p: Params): Params {
    p[Channel := PName(Fp)]
  }

  lemma AveragingThreads(last: Step)
    ensures var th := ThreadsOf(Averaging(last));
      th.resample.Some? && SamplesPerRev !in th.resample.value && th.frame.Some? && Channel !in th.frame.value
  {
    var a := Averaging(last);
    assert a[0] == FRAME && a[1..][0] == RESAMPLE;
    assert FirstParams(a[1..], AngularResample) == Some(RESAMPLE.params);
    assert FirstParams(a, AngularResample) == Some(RESAMPLE.params) && FirstParams(a, FrameTransform) == Some(FRAME.params);
  }

  lemma AveragingGives(last: Step, p: Params)
    requires Channel !in p
    ensures Effective(ThreadsOf(Averaging(last)), p) == Ok(WithChannel(p))
  {
    AveragingThreads(last);
  }

  lemma AveragingHave(last: Step)
    ensures var a := Averaging(last);
      && Have(a[..0]) == SEED_COLUMNS && Have(a[..1]) == SEED_COLUMNS + {Fc, Ff, Fp}
      && Have(a[..2]) == SEED_COLUMNS + {Fc, Ff, Fp} + {T, Rev, X, Y, Sig}
      && Have(a[..3]) == SEED_COLUMNS + {Fc, Ff, Fp} + {T, Rev, X, Y, Sig} + {TsaResid}
  {
    var a := Averaging(last);
    HaveNothing(a);
    HaveStep(a, 0);
    HaveStep(a, 1);
    HaveStep(a, 2);
  }

  lemma AveragingAccepted(last: Step)
    requires last == INVERT_FORCE || last == COARSE
    ensures Accepts(Averaging(last))
  {
    AveragingHave(last);
    forall i | 0 <= i < 4
      ensures StepOk(Averaging(last), i)
    {
      AveragingFresh(last, i);
    }
  }

  lemma AveragingFresh(last: Step, i: nat)
    requires (last == INVERT_FORCE || last == COARSE) && i < 4
    ensures FreshId(Averaging(last), i) && !Averaging(last)[i].op.Unregistered?
    ensures Needs(Averaging(last)[i].op) <=
      if i == 0 then SEED_COLUMNS else if i == 1 then SEED_COLUMNS + {Fc, Ff, Fp} else SEED_COLUMNS + {Fc, Ff, Fp} + {T, Rev, X, Y, Sig}
  {
  }

  // ---- the first three steps ----

  // Over one revolution at 256 samples the residual is as long as the signal.
  lemma AveragedTsa(cols: Columns<real>)
    requires Sig in cols && Rev in cols && |cols[Sig]| == 256 && cols[Rev] == Angular.Grid(0.0, 256, 256)
    ensures var r := TsaStep(map[], cols);
      r.Ok? && r.value.cols.Keys == {TsaResid} && |r.value.cols[TsaResid]| == 256 && r.value.cut == Some(256)
  {
    GridSpacing(0.0, 256, 256);
    assert TsaRate(map[], cols) == Ok(256);
    assert Angular.WholeRevolutions(256, 256) == 1;
    TsaLengths(map[], cols, 256);
  }

  lemma TsaBody(lib: Library, work: Columns<real>)
    requires NeverRaises(lib)
    ensures OpBody(lib, Tsa, map[], work, map[]) == TsaStep(map[], work)
  {
  }

  lemma TsaCalled(lib: Library, work: Columns<real>) returns (resid: Columns<real>)
    requires NeverRaises(lib) && Sig in work && Rev in work && |work[Sig]| == 256 && work[Rev] == Angular.Grid(0.0, 256, 256)
    ensures Registered(lib, map[]).step(Tsa, WithChannel(map[]), work, map[]) == Ok(Produced(resid, Some(256)))
    ensures resid.Keys == {TsaResid} && |resid[TsaResid]| == 256
  {
    assert Restrict(WithChannel(map[]), Tsa) == map[];
    AveragedTsa(work);
    TsaBody(lib, work);
    resid := TsaStep(map[], work).value.cols;
  }

  lemma CutApplies(env: Env<real>, th: Threads, c: Canonical, p: Params, work: Columns<real>, out: Columns<real>, n: nat)
    requires Effective(th, c.params) == Ok(p) && env.resolve(c.op, c.inputs, Lookup(work, X), Lookup(work, Y)) == Ok(map[])
    requires env.step(c.op, p, work, map[]) == Ok(Produced(out, Some(n)))
    ensures Apply(env, th, c, work) == Ok(Truncate(work + out, n))
  {
  }

  lemma FirstThree(env: Env<real>, last: Step, seeds: Columns<real>, frame: Columns<real>, out: Columns<real>, resid: Columns<real>)
    requires TwoCalls(env, WithChannel(map[]), seeds, frame, out)
    requires env.step(Tsa, WithChannel(map[]), seeds + frame + out, map[]) == Ok(Produced(resid, Some(256)))
    ensures RunRange(env, Averaging(last), 0, 3, seeds) == Ok(Truncate(seeds + frame + out + resid, 256))
  {
    var a, th := Averaging(last), ThreadsOf(Averaging(last));
    AveragingGives(last, map[]);
    TwoApplications(env, th, WithChannel(map[]), seeds, frame, out);
    CutApplies(env, th, CanonicalOf(TSA), WithChannel(map[]), seeds + frame + out, resid, 256);
    FirstRange(env, a, seeds, seeds + frame, seeds + frame + out, Truncate(seeds + frame + out + resid, 256));
  }

  lemma FirstRange(env: Env<real>, steps: seq<Step>, seeds: Columns<real>, one: Columns<real>, two: Columns<real>, three: Columns<real>)
    requires |steps| >= 3 && steps[0].on && steps[1].on && steps[2].on
    requires Apply(env, ThreadsOf(steps), CanonicalOf(steps[0]), seeds) == Ok(one)
    requires Apply(env, ThreadsOf(steps), CanonicalOf(steps[1]), one) == Ok(two)
    requires Apply(env, ThreadsOf(steps), CanonicalOf(steps[2]), two) == Ok(three)
    ensures RunRange(env, steps, 0, 3, seeds) == Ok(three)
  {
    RunRangeStep(env, steps, 0, 0, seeds);
    RunRangeStep(env, steps, 0, 1, seeds);
    RunRangeStep(env, steps, 0, 2, seeds);
  }

  // The recorded columns are as they were, beside a residual of 256.
  predicate ThreeDone(work: Columns<real>, seeds: Columns<real>)
    requires seeds.Keys == SEED_COLUMNS
  {
    && (forall c :: c in SEED_COLUMNS ==> c in work && work[c] == seeds[c])
    && {Fc, Ff, Fp} <= work.Keys && |work[Fp]| == 2
    && TsaResid in work && |work[TsaResid]| == 256
  }

  lemma ThreeAreDone(seeds: Columns<real>, frame: Columns<real>, out: Columns<real>, resid: Columns<real>)
    requires OneRevolution(seeds) && frame.Keys == {Fc, Ff, Fp} && |frame[Fp]| == 2 && out.Keys == {T, Rev, X, Y, Sig}
    requires resid.Keys == {TsaResid} && |resid[TsaResid]| == 256
    ensures ThreeDone(Truncate(seeds + frame + out + resid, 256), seeds)
  {
    var all := seeds + frame + out + resid;
    MergedColumns(seeds, frame, out, resid, all);
    CutKeeps(all, seeds, 256);
    CutLength(all, 256, Fp);
    CutLength(all, 256, TsaResid);
  }

  lemma MergedColumns(seeds: Columns<real>, frame: Columns<real>, out: Columns<real>, resid: Columns<real>, all: Columns<real>)
    requires seeds.Keys == SEED_COLUMNS && frame.Keys == {Fc, Ff, Fp} && out.Keys == {T, Rev, X, Y, Sig} && resid.Keys == {TsaResid}
    requires all == seeds + frame + out + resid
    ensures forall c :: c in SEED_COLUMNS ==> c in all && all[c] == seeds[c]
    ensures {Fc, Ff, Fp} <= all.Keys && all[Fp] == frame[Fp] && TsaResid in all && all[TsaResid] == resid[TsaResid]
  {
    forall c | c in SEED_COLUMNS
      ensures c in all && all[c] == seeds[c]
    {
      MergedSeed(seeds, frame, out, resid, c);
    }
    MergedForces(seeds, frame, out, resid);
  }

  lemma MergedForces(seeds: Columns<real>, frame: Columns<real>, out: Columns<real>, resid: Columns<real>)
    requires frame.Keys == {Fc, Ff, Fp} && out.Keys == {T, Rev, X, Y, Sig} && resid.Keys == {TsaResid}
    ensures var all := seeds + frame + out + resid;
            {Fc, Ff, Fp} <= all.Keys && all[Fp] == frame[Fp] && TsaResid in all && all[TsaResid] == resid[TsaResid]
  {
    NotRecorded(Fp);
  }

  lemma MergedSeed(seeds: Columns<real>, frame: Columns<real>, out: Columns<real>, resid: Columns<real>, c: Col)
    requires frame.Keys == {Fc, Ff, Fp} && out.Keys == {T, Rev, X, Y, Sig} && resid.Keys == {TsaResid}
    requires c in SEED_COLUMNS && c in seeds
    ensures c in seeds + frame + out + resid && (seeds + frame + out + resid)[c] == seeds[c]
  {
    NotRecorded(c);
    Unchanged(seeds, frame, out, resid, c);
  }

  lemma Unchanged(seeds: Columns<real>, frame: Columns<real>, out: Columns<real>, resid: Columns<real>, c: Col)
    requires c in seeds && c !in frame && c !in out && c !in resid
    ensures c in seeds + frame + out + resid && (seeds + frame + out + resid)[c] == seeds[c]
  {
  }

  lemma NotRecorded(c: Col)
    ensures c in SEED_COLUMNS ==> c !in {Fc, Ff, Fp} && c !in {T, Rev, X, Y, Sig} && c != TsaResid
    ensures c == Fp ==> c !in {T, Rev, X, Y, Sig}
  {
  }

  lemma CutKeeps(all: Columns<real>, seeds: Columns<real>, n: nat)
    requires forall c :: c in SEED_COLUMNS ==> c in seeds && c in all && all[c] == seeds[c]
    ensures forall c :: c in SEED_COLUMNS ==> Truncate(all, n)[c] == seeds[c]
  {
    forall c | c in SEED_COLUMNS
      ensures Truncate(all, n)[c] == seeds[c]
    {
      CutLength(all, n, c);
      KindsOfSets(c);
    }
  }

  lemma AveragingRun(lib: Library, last: Step, seeds: Columns<real>) returns (work: Columns<real>)
    requires NeverRaises(lib) && OneRevolution(seeds)
    ensures RunRange(Registered(lib, map[]), Averaging(last), 0, 3, seeds) == Ok(work) && ThreeDone(work, seeds)
  {
    ThreadedChannel();
    var frame, out := RegisteredCalls(lib, WithChannel(map[]), 256, seeds);
    var two := seeds + frame + out;
    assert two[Sig] == out[Sig] && two[Rev] == out[Rev];
    var resid := TsaCalled(lib, two);
    FirstThree(Registered(lib, map[]), last, seeds, frame, out, resid);
    ThreeAreDone(seeds, frame, out, resid);
    work := Truncate(two + resid, 256);
  }

  // ---- the last step ----

  lemma Ended(env: Env<real>, last: Step, p: Params, seeds: Columns<real>, work: Columns<real>, out: Columns<real>)
    requires Accepts(Averaging(last)) && last.on && last.inputs == map[] && Channel !in last.params && p == WithChannel(last.params)
    requires RunRange(env, Averaging(last), 0, 3, seeds) == Ok(work)
    requires env.resolve(last.op, map[], Lookup(work, X), Lookup(work, Y)) == Ok(map[])
    requires env.step(last.op, p, work, map[]) == Ok(Produced(out, None))
    ensures RunSpec(env, Averaging(last), seeds, None, None, None) == Assemble(env, work + out)
  {
    AveragingGives(last, last.params);
    ApplyUnfolds(env, ThreadsOf(Averaging(last)), CanonicalOf(last), p, map[], work, out);
    RunRangeStep(env, Averaging(last), 0, 3, seeds);
    RunToEnd(env, Averaging(last), seeds);
  }

  lemma RunToEnd(env: Env<real>, steps: seq<Step>, seeds: Columns<real>)
    requires Accepts(steps) && RunRange(env, steps, 0, |steps|, seeds).Ok?
    ensures RunSpec(env, steps, seeds, None, None, None) == Assemble(env, RunRange(env, steps, 0, |steps|, seeds).value)
  {
  }

  // A public column shorter than the residual stays so.
  lemma TwoLengths(env: Env<real>, work: Columns<real>, c: Col)
    requires TsaResid in work && c in work && |work[TsaResid]| == 256 && |work[c]| < 256 && c in PUBLIC_COLUMNS && TsaResid in PUBLIC_COLUMNS
    ensures var r := Assemble(env, work);
      r.Ok? && TsaResid in r.value && c in r.value && |r.value[TsaResid]| == 256 && |r.value[c]| == |work[c]|
  {
    AssembledKeys(env, work);
    AssembledColumn(env, work, TsaResid);
    AssembledColumn(env, work, c);
  }

  lemma EndsUnequal(env: Env<real>, last: Step, seeds: Columns<real>, work: Columns<real>, out: Columns<real>, c: Col, n: nat)
    requires (last == INVERT_FORCE && c == Inverted) || (last == COARSE && c == T)
    requires RunRange(env, Averaging(last), 0, 3, seeds) == Ok(work)
    requires forall op, x, y :: env.resolve(op, map[], x, y) == Ok(map[])
    requires env.step(last.op, WithChannel(last.params), work, map[]) == Ok(Produced(out, None))
    requires TsaResid in work && TsaResid !in out && |work[TsaResid]| == 256 && c in out && |out[c]| == n < 256
    ensures Unequal(env, last, seeds, c, n)
  {
    AveragingAccepted(last);
    Ended(env, last, WithChannel(last.params), seeds, work, out);
    ArePublic();
    TwoLengths(env, work + out, c);
  }

  lemma InvertCalled(lib: Library, work: Columns<real>) returns (out: Columns<real>)
    requires NeverRaises(lib) && Fx in work
    ensures Registered(lib, map[]).step(Invert, WithChannel(INVERT_FORCE.params), work, map[]) == Ok(Produced(out, None))
    ensures Inverted in out && TsaResid !in out && |out[Inverted]| == |work[Fx]|
  {
    assert Restrict(WithChannel(INVERT_FORCE.params), Invert) == INVERT_FORCE.params;
    InvertBody(lib, INVERT_FORCE.params, work);
    out := InvertStep(lib, INVERT_FORCE.params, work, map[]).value.cols;
    NoResidual(out, {Inverted});
  }

  lemma NoResidual(out: Columns<real>, keys: set<Col>)
    requires out.Keys == keys && TsaResid !in keys
    ensures TsaResid !in out
  {
  }

  lemma InvertBody(lib: Library, p: Params, work: Columns<real>)
    requires NeverRaises(lib) && Source in p && p[Source] == PName(Fx) && Fx in work
    ensures OpBody(lib, Invert, p, work, map[]) == InvertStep(lib, p, work, map[])
    ensures var r := InvertStep(lib, p, work, map[]);
      r.Ok? && r.value.cut.None? && r.value.cols.Keys == {Inverted} && |r.value.cols[Inverted]| == |work[Fx]|
  {
  }

  // The run of the list returns, c is shorter than the residual.
  predicate Unequal(env: Env<real>, last: Step, seeds: Columns<real>, c: Col, n: nat) {
    var r := RunSpec(env, Averaging(last), seeds, None, None, None);
    && r.Ok? && TsaResid in r.value && c in r.value
    && |r.value[TsaResid]| == 256 && |r.value[c]| == n != 256
  }

  // An inversion of the recorded force has two entries beside 256.
  lemma ForceInversionBreaks(lib: Library, seeds: Columns<real>)
    requires NeverRaises(lib) && OneRevolution(seeds)
    ensures Accepts(Averaging(INVERT_FORCE)) && OneGrid(Averaging(INVERT_FORCE))
    ensures Unequal(Registered(lib, map[]), INVERT_FORCE, seeds, Inverted, 2)
  {
    AveragingAccepted(INVERT_FORCE);
    ForceHasOneGrid();
    ForceRuns(lib, seeds);
  }

  lemma ForceHasOneGrid()
    ensures OneGrid(Averaging(INVERT_FORCE))
  {
  }

  lemma ForceRuns(lib: Library, seeds: Columns<real>)
    requires NeverRaises(lib) && OneRevolution(seeds)
    ensures Unequal(Registered(lib, map[]), INVERT_FORCE, seeds, Inverted, 2)
  {
    var work := AveragingRun(lib, INVERT_FORCE, seeds);
    var out := InvertCalled(lib, work);
    NothingToResolve(lib);
    EndsUnequal(Registered(lib, map[]), INVERT_FORCE, seeds, work, out, Inverted, 2);
  }

  lemma ArePublic()
    ensures Inverted in PUBLIC_COLUMNS && T in PUBLIC_COLUMNS && TsaResid in PUBLIC_COLUMNS
  {
    assert PUBLIC_COLUMNS[12] == Inverted && PUBLIC_COLUMNS[0] == T && PUBLIC_COLUMNS[4] == TsaResid;
  }

  // A second grid of one sample a revolution leaves one time beside 256 residuals.
  lemma SecondGridBreaks(lib: Library, seeds: Columns<real>)
    requires NeverRaises(lib) && OneRevolution(seeds)
    ensures Accepts(Averaging(COARSE))
    ensures Unequal(Registered(lib, map[]), COARSE, seeds, T, 1)
  {
    AveragingAccepted(COARSE);
    CoarseRuns(lib, seeds);
  }

  lemma CoarseRuns(lib: Library, seeds: Columns<real>)
    requires NeverRaises(lib) && OneRevolution(seeds)
    ensures Unequal(Registered(lib, map[]), COARSE, seeds, T, 1)
  {
    var work := AveragingRun(lib, COARSE, seeds);
    var out := CoarseCalled(lib, seeds, work);
    NothingToResolve(lib);
    EndsUnequal(Registered(lib, map[]), COARSE, seeds, work, out, T, 1);
  }

  lemma CoarseCalled(lib: Library, seeds: Columns<real>, work: Columns<real>) returns (out: Columns<real>)
    requires NeverRaises(lib) && OneRevolution(seeds) && ThreeDone(work, seeds)
    ensures Registered(lib, map[]).step(AngularResample, WithChannel(COARSE.params), work, map[]) == Ok(Produced(out, None))
    ensures T in out && TsaResid !in out && |out[T]| == 1
  {
    CoarseParams();
    out := ResampleCalled(lib, WithChannel(COARSE.params), 1, work);
    NoResidualResampled(out);
  }

  lemma NoResidualResampled(out: Columns<real>)
    requires Resampled(out, 1)
    ensures TsaResid !in out && T in out && |out[T]| == 1
  {
    NotRecorded(Fp);
    NoResidual(out, {T, Rev, X, Y, Sig});
  }

  lemma CoarseParams()
    ensures var p := WithChannel(COARSE.params);
      p.Keys <= {SamplesPerRev, Channel} && Rate(p) == Ok(1) && ChannelOf(p) == Ok(Fp)
  {
  }
}
