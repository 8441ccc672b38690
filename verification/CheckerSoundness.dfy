/** The static checker of a recipe against the executor. */
module CheckerSoundness {
  // An accepted recipe never reaches a step without its columns. A recipe refused for a missing column could
  // not have run, with one exception.

  import opened Wrappers
  import opened Recipe
  import opened Registry
  import opened Runner
  import opened Ops
  import opened SmallRecording

  ghost predicate KeepsContract<V(!new)>(env: Env<V>) {
    forall op, p, cols, ins :: env.step(op, p, cols, ins).Ok? ==> env.step(op, p, cols, ins).value.cols.Keys == Produces(op)
  }

  lemma RegisteredKeepsContract(lib: Library, layers: LayerSet)
    ensures KeepsContract(Registered(lib, layers))
  {
    var env := Registered(lib, layers);
    forall op, p, cols, ins | env.step(op, p, cols, ins).Ok?
      ensures env.step(op, p, cols, ins).value.cols.Keys == Produces(op)
    {
      StepKeepsContract(lib, op, p, cols, ins);
    }
  }

  lemma ApplyKeys<V(!new)>(env: Env<V>, th: Threads, c: Canonical, work: Columns<V>)
    requires KeepsContract(env) && Apply(env, th, c, work).Ok?
    ensures Apply(env, th, c, work).value.Keys == work.Keys + Produces(c.op)
  {
  }

  // The columns the checker tracks are the columns the executor holds.
  lemma {:induction false} WorkHoldsHave<V(!new)>(env: Env<V>, steps: seq<Step>, i: nat, seeds: Columns<V>)
    requires KeepsContract(env) && seeds.Keys == SEED_COLUMNS && i <= |steps|
    requires RunRange(env, steps, 0, i, seeds).Ok?
    ensures RunRange(env, steps, 0, i, seeds).value.Keys == Have(steps[..i])
  {
    if i > 0 {
      assert steps[..i][..i - 1] == steps[..i - 1];
      WorkHoldsHave(env, steps, i - 1, seeds);
      RunRangeStep(env, steps, 0, i - 1, seeds);
      if steps[i - 1].on {
        ApplyKeys(env, ThreadsOf(steps), CanonicalOf(steps[i - 1]), RunRange(env, steps, 0, i - 1, seeds).value);
      }
    }
  }

  // Soundness: in an accepted recipe every enabled step that is reached finds all its columns.
  lemma CheckerIsSound<V(!new)>(env: Env<V>, steps: seq<Step>, i: nat, seeds: Columns<V>)
    requires KeepsContract(env) && seeds.Keys == SEED_COLUMNS
    requires Accepts(steps) && i < |steps| && steps[i].on
    requires RunRange(env, steps, 0, i, seeds).Ok?
    ensures Needs(steps[i].op) <= RunRange(env, steps, 0, i, seeds).value.Keys
  {
    WorkHoldsHave(env, steps, i, seeds);
    assert StepOk(steps, i);
  }

  // ---- completeness: what a run without the check would do ----

  // The columns a run can hold: each step brings all it produces, and the sources of what it produced are there.
  predicate Closed(keys: set<Col>) {
    && SEED_COLUMNS <= keys
    && ({Fc, Ff, Fp} <= keys || {Fc, Ff, Fp} !! keys)
    && ({T, Rev, X, Y, Sig} <= keys || {T, Rev, X, Y, Sig} !! keys)
    && (Sig in keys ==> Fp in keys)
    && (TsaResid in keys ==> Sig in keys)
    && (ResidZ in keys ==> TsaResid in keys)
  }

  // Not all that is declared is read, but in a run what is read brings the rest along.
  lemma DemandsBringNeeds(op: Op, keys: set<Col>)
    requires Closed(keys) && Demands(op) <= keys && op != GrowSegmentation
    requires op == AngularResample ==> Fc in keys || Ff in keys || Fp in keys
    ensures Needs(op) <= keys
  {
  }

  lemma ProducesKeepsClosed(op: Op, keys: set<Col>)
    requires Closed(keys) && Demands(op) <= keys
    requires op == AngularResample ==> Fc in keys || Ff in keys || Fp in keys
    ensures Closed(keys + Produces(op))
  {
  }

  // A registered step that returned had what it reads.
  lemma AppliedHasDemands(lib: Library, layers: LayerSet, th: Threads, c: Canonical, work: Columns<real>)
    requires Apply(Registered(lib, layers), th, c, work).Ok?
    ensures Demands(c.op) <= work.Keys
    ensures c.op == AngularResample ==> Fc in work || Ff in work || Fp in work
  {
    var p := Effective(th, c.params).value;
    var ins := ResolveInputs(layers, c.op, c.inputs, Lookup(work, X), Lookup(work, Y)).value;
    StepHasDemands(lib, c.op, p, work, ins);
  }

  ghost predicate HasDemands(env: Env<real>) {
    forall th, c, work :: Apply(env, th, c, work).Ok? ==>
      Demands(c.op) <= work.Keys && (c.op == AngularResample ==> Fc in work || Ff in work || Fp in work)
  }

  lemma RegisteredHasDemands(lib: Library, layers: LayerSet)
    ensures HasDemands(Registered(lib, layers))
  {
    forall th, c, work | Apply(Registered(lib, layers), th, c, work).Ok?
      ensures Demands(c.op) <= work.Keys && (c.op == AngularResample ==> Fc in work || Ff in work || Fp in work)
    {
      AppliedHasDemands(lib, layers, th, c, work);
    }
  }

  lemma {:induction false} RunIsClosed(env: Env<real>, steps: seq<Step>, i: nat, seeds: Columns<real>)
    requires KeepsContract(env) && HasDemands(env) && seeds.Keys == SEED_COLUMNS && i <= |steps|
    requires RunRange(env, steps, 0, i, seeds).Ok?
    ensures Closed(RunRange(env, steps, 0, i, seeds).value.Keys)
  {
    if i > 0 {
      RunIsClosed(env, steps, i - 1, seeds);
      RunRangeStep(env, steps, 0, i - 1, seeds);
      var before := RunRange(env, steps, 0, i - 1, seeds).value;
      if steps[i - 1].on {
        ApplyKeys(env, ThreadsOf(steps), CanonicalOf(steps[i - 1]), before);
        ProducesKeepsClosed(steps[i - 1].op, before.Keys);
      }
    }
  }

  // Raising for a reason of the step's own: a parameter, a layer or a value, not a column.
  predicate Raises(lib: Library, layers: LayerSet, th: Threads, c: Canonical, work: Columns<real>) {
    var p, ins := Effective(th, c.params), ResolveInputs(layers, c.op, c.inputs, Lookup(work, X), Lookup(work, Y));
    p.Err? || ins.Err? || lib.raises(c.op, Restrict(p.value, c.op), work, ins.value)
  }

  // grow_segmentation takes the points and leaves out a feature that is not there.
  lemma GrowNeedsOnlyPoints(lib: Library, layers: LayerSet, th: Threads, c: Canonical, work: Columns<real>)
    requires c.op == GrowSegmentation && X in work && Y in work
    ensures Apply(Registered(lib, layers), th, c, work).Err? <==> Raises(lib, layers, th, c, work)
  {
    var p, ins := Effective(th, c.params), ResolveInputs(layers, c.op, c.inputs, Lookup(work, X), Lookup(work, Y));
    ApplyFails(Registered(lib, layers), th, c, work);
    RegisteredCallsOps(lib, layers, c, work);
    if p.Ok? && ins.Ok? {
      GrowStep(lib, Restrict(p.value, GrowSegmentation), work, ins.value);
    }
  }

  lemma ApplyFails<V>(env: Env<V>, th: Threads, c: Canonical, work: Columns<V>)
    ensures var p, ins := Effective(th, c.params), env.resolve(c.op, c.inputs, Lookup(work, X), Lookup(work, Y));
      Apply(env, th, c, work).Err? <==> p.Err? || ins.Err? || env.step(c.op, p.value, work, ins.value).Err?
  {
  }

  lemma RegisteredCallsOps(lib: Library, layers: LayerSet, c: Canonical, work: Columns<real>)
    ensures var env := Registered(lib, layers);
      && env.resolve(c.op, c.inputs, Lookup(work, X), Lookup(work, Y)) == ResolveInputs(layers, c.op, c.inputs, Lookup(work, X), Lookup(work, Y))
      && forall p, ins :: env.step(c.op, p, work, ins) == OpBody(lib, c.op, Restrict(p, c.op), work, ins)
  {
  }

  lemma GrowStep(lib: Library, p: Params, work: Columns<real>, ins: Resolved)
    requires X in work && Y in work
    ensures OpBody(lib, GrowSegmentation, p, work, ins).Err? <==> lib.raises(GrowSegmentation, p, work, ins)
  {
  }

  /**
   What the check is for, exactly: of the enabled steps a run reaches without a declared column, all raise,
   except a grow_segmentation that has its points; that one raises only for a reason of its own.
   */
  lemma MissingColumnRaisesExactly(lib: Library, layers: LayerSet, steps: seq<Step>, i: nat, seeds: Columns<real>)
    requires seeds.Keys == SEED_COLUMNS && i < |steps| && steps[i].on
    requires !(Needs(steps[i].op) <= Have(steps[..i]))
    requires RunRange(Registered(lib, layers), steps, 0, i, seeds).Ok?
    ensures var work := RunRange(Registered(lib, layers), steps, 0, i, seeds).value;
      RunRange(Registered(lib, layers), steps, 0, i + 1, seeds).Err? <==>
        steps[i].op != GrowSegmentation || X !in Have(steps[..i]) || Raises(lib, layers, ThreadsOf(steps), CanonicalOf(steps[i]), work)
  {
    var env := Registered(lib, layers);
    var work := RunRange(env, steps, 0, i, seeds).value;
    RegisteredKeepsContract(lib, layers);
    RegisteredHasDemands(lib, layers);
    ReachedWithout(env, steps, i, seeds);
    RunRangeStep(env, steps, 0, i, seeds);
    if steps[i].op == GrowSegmentation && X in work {
      GrowNeedsOnlyPoints(lib, layers, ThreadsOf(steps), CanonicalOf(steps[i]), work);
    }
  }

  lemma ReachedWithout(env: Env<real>, steps: seq<Step>, i: nat, seeds: Columns<real>)
    requires KeepsContract(env) && HasDemands(env) && seeds.Keys == SEED_COLUMNS && i < |steps|
    requires !(Needs(steps[i].op) <= Have(steps[..i])) && RunRange(env, steps, 0, i, seeds).Ok?
    ensures var work := RunRange(env, steps, 0, i, seeds).value;
      && work.Keys == Have(steps[..i]) && (X in work ==> Y in work)
      && (steps[i].op != GrowSegmentation || X !in work ==> Apply(env, ThreadsOf(steps), CanonicalOf(steps[i]), work).Err?)
  {
    var work := RunRange(env, steps, 0, i, seeds).value;
    WorkHoldsHave(env, steps, i, seeds);
    RunIsClosed(env, steps, i, seeds);
    if Apply(env, ThreadsOf(steps), CanonicalOf(steps[i]), work).Ok? && steps[i].op != GrowSegmentation {
      DemandsBringNeeds(steps[i].op, work.Keys);
    }
  }

  // So, but for grow_segmentation, nothing that could run is refused for a missing column.
  lemma CheckerIsComplete(lib: Library, layers: LayerSet, steps: seq<Step>, i: nat, seeds: Columns<real>)
    requires seeds.Keys == SEED_COLUMNS && i < |steps| && steps[i].on
    requires !(Needs(steps[i].op) <= Have(steps[..i]))
    requires steps[i].op != GrowSegmentation || X !in Have(steps[..i])
    ensures RunRange(Registered(lib, layers), steps, 0, i + 1, seeds).Err?
  {
    RunRangeStep(Registered(lib, layers), steps, 0, i, seeds);
    if RunRange(Registered(lib, layers), steps, 0, i, seeds).Ok? {
      MissingColumnRaisesExactly(lib, layers, steps, i, seeds);
    }
  }

  const GROW := Step(Some("c"), GrowSegmentation, true, map[], map[])

  function Ungraded(): seq<Step> {
    [FRAME, RESAMPLE, GROW]
  }

  lemma UngradedIsRefused()
    ensures !Accepts(Ungraded()) && ResidZ !in Have(Ungraded()[..2])
  {
    var u := Ungraded();
    HaveNothing(u);
    HaveStep(u, 0);
    HaveStep(u, 1);
    assert ResidZ in Needs(GrowSegmentation) && ResidZ !in Have(u[..2]);
    assert !StepOk(u, 2);
  }

  lemma UngradedThreads()
    ensures Effective(ThreadsOf(Ungraded()), map[]) == Ok(map[Channel := PName(Fp)])
  {
    assert Ungraded()[1..] == [RESAMPLE, GROW];
  }

  lemma UngradedRun(env: Env<real>, seeds: Columns<real>, frame: Columns<real>, out: Columns<real>)
    requires TwoCalls(env, map[Channel := PName(Fp)], seeds, frame, out)
    requires Apply(env, ThreadsOf(Ungraded()), CanonicalOf(GROW), seeds + frame + out).Ok?
    ensures RunRange(env, Ungraded(), 0, 3, seeds).Ok?
  {
    UngradedThreads();
    TwoApplications(env, ThreadsOf(Ungraded()), map[Channel := PName(Fp)], seeds, frame, out);
    assert RunRange(env, Ungraded(), 0, 1, seeds) == Ok(seeds + frame);
    assert RunRange(env, Ungraded(), 0, 2, seeds) == Ok(seeds + frame + out);
  }

  // A recipe the check refuses for resid_z and the step loop would run to its end.
  lemma GrowRunsWithoutItsScore(lib: Library, env: Env<real>, seeds: Columns<real>)
    requires env == Registered(lib, map[]) && NeverRaises(lib) && OneRevolution(seeds)
    ensures !Accepts(Ungraded()) && ResidZ !in Have(Ungraded()[..2])
    ensures RunRange(env, Ungraded(), 0, 3, seeds).Ok?
  {
    UngradedCalls(lib, env, seeds);
    UngradedIsRefused();
  }

  lemma UngradedCalls(lib: Library, env: Env<real>, seeds: Columns<real>)
    requires env == Registered(lib, map[]) && NeverRaises(lib) && OneRevolution(seeds)
    ensures RunRange(env, Ungraded(), 0, 3, seeds).Ok?
  {
    UngradedThreads();
    ThreadedChannel();
    var frame, out := RegisteredCalls(lib, map[Channel := PName(Fp)], 256, seeds);
    GrowApplies(lib, ThreadsOf(Ungraded()), seeds + frame + out);
    UngradedRun(env, seeds, frame, out);
  }

  lemma ThreadedChannel()
    ensures var p: Params := map[Channel := PName(Fp)];
      Rate(p) == Ok(256) && ChannelOf(p) == Ok(Fp) && p.Keys <= {SamplesPerRev, Channel}
  {
  }

  lemma GrowApplies(lib: Library, th: Threads, work: Columns<real>)
    requires NeverRaises(lib) && Effective(th, map[]).Ok? && X in work && Y in work
    ensures Apply(Registered(lib, map[]), th, CanonicalOf(GROW), work).Ok?
  {
    NothingRaises(lib, th, CanonicalOf(GROW), work);
    GrowNeedsOnlyPoints(lib, map[], th, CanonicalOf(GROW), work);
  }

  lemma NothingRaises(lib: Library, th: Threads, c: Canonical, work: Columns<real>)
    requires NeverRaises(lib) && Effective(th, c.params).Ok? && c.inputs == map[]
    ensures !Raises(lib, map[], th, c, work)
  {
  }
}
