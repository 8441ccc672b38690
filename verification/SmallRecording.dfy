/** One revolution in two samples, for examples of recipes. */
module SmallRecording {
  // What the registered frame_transform and angular_resample make of it.

  import opened Wrappers
  import opened Recipe
  import opened Registry
  import opened Runner
  import opened Ops
  import Angular

  const FRAME := Step(Some("a"), FrameTransform, true, map[], map[])
  const RESAMPLE := Step(Some("b"), AngularResample, true, map[], map[])

  // A recording of one revolution in two samples.
  predicate OneRevolution(seeds: Columns<real>) {
    && seeds.Keys == SEED_COLUMNS
    && seeds[Revs] == [0.0, 1.0]
    && forall c :: c in seeds ==> |seeds[c]| == 2
  }

  lemma ApplyUnfolds<V>(env: Env<V>, th: Threads, c: Canonical, p: Params, ins: Resolved, work: Columns<V>, out: Columns<V>)
    requires Effective(th, c.params) == Ok(p)
    requires env.resolve(c.op, c.inputs, Lookup(work, X), Lookup(work, Y)) == Ok(ins)
    requires env.step(c.op, p, work, ins) == Ok(Produced(out, None))
    ensures Apply(env, th, c, work) == Ok(work + out)
  {
  }

  // No step of the recipe raises for a reason of its own.
  ghost predicate NeverRaises(lib: Library) {
    forall op, p, cols, ins :: !lib.raises(op, p, cols, ins)
  }

  lemma FrameBody(lib: Library, seeds: Columns<real>)
    requires NeverRaises(lib)
    ensures OpBody(lib, FrameTransform, map[], seeds, map[]) == FrameStep(lib, map[], seeds, map[])
  {
  }

  lemma FrameStepSize(lib: Library, seeds: Columns<real>)
    requires OneRevolution(seeds)
    ensures var r := FrameStep(lib, map[], seeds, map[]);
      r.Ok? && r.value.cut.None? && r.value.cols.Keys == {Fc, Ff, Fp} && |r.value.cols[Fp]| == 2
  {
  }

  lemma FrameCalled(lib: Library, p: Params, seeds: Columns<real>) returns (frame: Columns<real>)
    requires NeverRaises(lib) && OneRevolution(seeds) && p.Keys <= {SamplesPerRev, Channel}
    ensures Registered(lib, map[]).step(FrameTransform, p, seeds, map[]) == Ok(Produced(frame, None))
    ensures frame.Keys == {Fc, Ff, Fp} && |frame[Fp]| == 2
  {
    assert Restrict(p, FrameTransform) == map[];
    FrameBody(lib, seeds);
    FrameStepSize(lib, seeds);
    frame := FrameStep(lib, map[], seeds, map[]).value.cols;
  }

  // The grid of one revolution, and a column on it for each of the five.
  predicate Resampled(out: Columns<real>, rate: nat) {
    && out.Keys == {T, Rev, X, Y, Sig} && rate >= 1
    && (forall c :: c in out ==> |out[c]| == rate)
    && out[Rev] == Angular.Grid(0.0, rate, rate)
  }

  // One sample per step: the grid starts at 0 and has as many samples as the rate.
  lemma AngularStepSize(p: Params, work: Columns<real>, rate: int)
    requires rate >= 1 && Rate(p) == Ok(rate) && ChannelOf(p) == Ok(Fp)
    requires Needs(AngularResample) <= work.Keys && work[Revs] == [0.0, 1.0]
    requires |work[TRaw]| == |work[XRaw]| == |work[YRaw]| == |work[Fp]| == 2
    ensures var r := AngularStep(p, work);
      r.Ok? && r.value.cut.None? && Resampled(r.value.cols, rate)
  {
    assert Angular.GridSize(work[Revs], rate) == rate;
  }

  lemma ResampleBody(lib: Library, p: Params, work: Columns<real>)
    requires NeverRaises(lib)
    ensures OpBody(lib, AngularResample, p, work, map[]) == AngularStep(p, work)
  {
  }

  lemma ResampleCalled(lib: Library, p: Params, rate: int, work: Columns<real>) returns (out: Columns<real>)
    requires NeverRaises(lib) && rate >= 1
    requires p.Keys <= {SamplesPerRev, Channel} && Rate(p) == Ok(rate) && ChannelOf(p) == Ok(Fp)
    requires Needs(AngularResample) <= work.Keys && work[Revs] == [0.0, 1.0]
    requires |work[TRaw]| == |work[XRaw]| == |work[YRaw]| == |work[Fp]| == 2
    ensures Registered(lib, map[]).step(AngularResample, p, work, map[]) == Ok(Produced(out, None))
    ensures Resampled(out, rate)
  {
    assert Restrict(p, AngularResample) == p;
    AngularStepSize(p, work, rate);
    ResampleBody(lib, p, work);
    out := AngularStep(p, work).value.cols;
  }

  // What frame_transform and then angular_resample make of seeds, given the same parameters.
  ghost predicate TwoCalls<V(!new)>(env: Env<V>, p: Params, seeds: Columns<V>, frame: Columns<V>, out: Columns<V>) {
    && (forall op, x, y :: env.resolve(op, map[], x, y) == Ok(map[]))
    && env.step(FrameTransform, p, seeds, map[]) == Ok(Produced(frame, None))
    && env.step(AngularResample, p, seeds + frame, map[]) == Ok(Produced(out, None))
  }

  lemma TwoApplications<V(!new)>(env: Env<V>, th: Threads, p: Params, seeds: Columns<V>, frame: Columns<V>, out: Columns<V>)
    requires Effective(th, map[]) == Ok(p) && TwoCalls(env, p, seeds, frame, out)
    ensures Apply(env, th, CanonicalOf(FRAME), seeds) == Ok(seeds + frame)
    ensures Apply(env, th, CanonicalOf(RESAMPLE), seeds + frame) == Ok(seeds + frame + out)
  {
    ApplyUnfolds(env, th, CanonicalOf(FRAME), p, map[], seeds, frame);
    ApplyUnfolds(env, th, CanonicalOf(RESAMPLE), p, map[], seeds + frame, out);
  }

  lemma NothingToResolve(lib: Library)
    ensures forall op, x, y :: Registered(lib, map[]).resolve(op, map[], x, y) == Ok(map[])
  {
  }

  lemma WithForces(seeds: Columns<real>, frame: Columns<real>)
    requires OneRevolution(seeds) && frame.Keys == {Fc, Ff, Fp} && |frame[Fp]| == 2
    ensures var work := seeds + frame;
      && Needs(AngularResample) <= work.Keys && work[Revs] == [0.0, 1.0]
      && |work[TRaw]| == |work[XRaw]| == |work[YRaw]| == |work[Fp]| == 2
  {
  }

  lemma CallsJoin<V(!new)>(env: Env<V>, p: Params, seeds: Columns<V>, frame: Columns<V>, out: Columns<V>)
    requires forall op, x, y :: env.resolve(op, map[], x, y) == Ok(map[])
    requires env.step(FrameTransform, p, seeds, map[]) == Ok(Produced(frame, None))
    requires env.step(AngularResample, p, seeds + frame, map[]) == Ok(Produced(out, None))
    ensures TwoCalls(env, p, seeds, frame, out)
  {
  }

  // The registered steps make those calls, at the rate they are given.
  lemma RegisteredCalls(lib: Library, p: Params, rate: int, seeds: Columns<real>) returns (frame: Columns<real>, out: Columns<real>)
    requires NeverRaises(lib) && OneRevolution(seeds) && rate >= 1
    requires p.Keys <= {SamplesPerRev, Channel} && Rate(p) == Ok(rate) && ChannelOf(p) == Ok(Fp)
    ensures TwoCalls(Registered(lib, map[]), p, seeds, frame, out)
    ensures frame.Keys == {Fc, Ff, Fp} && |frame[Fp]| == 2 && Resampled(out, rate)
  {
    frame := FrameCalled(lib, p, seeds);
    WithForces(seeds, frame);
    out := ResampleCalled(lib, p, rate, seeds + frame);
    NothingToResolve(lib);
    CallsJoin(Registered(lib, map[]), p, seeds, frame, out);
  }
}
