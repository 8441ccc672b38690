/** The output contract of a recipe: the lengths of its public columns. */
module PublicColumns {
  // run_recipe promises public columns of one length. With one angular grid every column has it but an inversion
  // of a column shorter than the grid (module UnequalColumns shows one, and what a second grid does).

  import opened Wrappers
  import opened Recipe
  import opened Registry
  import opened Runner
  import opened Ops
  import opened CheckerSoundness
  import opened RecipeLengths
  import Angular

  // ---- full-rate columns keep their recorded length ----

  // frame_transform gives its columns the length of the forces; the others are recorded.
  function Recorded(seeds: Columns<real>, c: Col): nat
    requires seeds.Keys == SEED_COLUMNS
  {
    if c in SEED_COLUMNS then |seeds[c]| else |seeds[Fx]|
  }

  predicate FullRateKept(work: Columns<real>, seeds: Columns<real>)
    requires seeds.Keys == SEED_COLUMNS
  {
    forall c :: c in work && KindOf(c) == FullRate ==> |work[c]| == Recorded(seeds, c)
  }

  // A column a step does not produce is left alone, but for the cut.
  lemma MergeLeaves(work: Columns<real>, out: Produced<real>, c: Col)
    requires c in work && c !in out.cols
    ensures c in Merge(work, out)
    ensures |Merge(work, out)[c]| == if out.cut.Some? && KindOf(c) != FullRate && KindOf(c) != Signal && |work[c]| >= out.cut.value
                                     then out.cut.value else |work[c]|
  {
    KindsOfSets(c);
  }

  lemma FrameLengths(lib: Library, p: Params, work: Columns<real>, ins: Resolved, out: Produced<real>)
    requires FrameStep(lib, p, work, ins) == Ok(out)
    ensures Fx in work && out.cut.None? && forall c :: c in out.cols ==> |out.cols[c]| == |work[Fx]|
  {
  }

  lemma FullRateProducers(op: Op, c: Col)
    requires c in Produces(op)
    ensures KindOf(c) == FullRate <==> op == FrameTransform
    ensures op == FrameTransform ==> c !in SEED_COLUMNS
    ensures c == Inverted <==> op == Invert
  {
  }

  lemma StepKeepsFullRate(lib: Library, c: Canonical, p: Params, work: Columns<real>, ins: Resolved, out: Produced<real>,
                          seeds: Columns<real>)
    requires seeds.Keys == SEED_COLUMNS && FullRateKept(work, seeds) && Ran(lib, c, p, work, ins, out)
    ensures FullRateKept(Merge(work, out), seeds)
  {
    forall k | k in Merge(work, out) && KindOf(k) == FullRate
      ensures |Merge(work, out)[k]| == Recorded(seeds, k)
    {
      if k in out.cols {
        FullRateProducers(c.op, k);
        FrameLengths(lib, Restrict(p, c.op), work, ins, out);
        assert KindOf(Fx) == FullRate;
      } else {
        MergeLeaves(work, out, k);
      }
    }
  }

  // ---- what invert has read ----

  // str(params.get("source", "resid_z"))
  function SourceOf(p: Params): Col {
    if Source in p && p[Source].PName? then p[Source].col else ResidZ
  }

  // The column an inversion goes back to: inverting `inverted` again changes nothing about it.
  function NextRoot(c: Canonical, root: Option<Col>): Option<Col> {
    if c.op == Invert && SourceOf(c.params) != Inverted then Some(SourceOf(c.params)) else root
  }

  // That of the last enabled invert among the first i steps.
  function InvertRoot(steps: seq<Step>, i: nat): Option<Col>
    requires i <= |steps|
  {
    if i == 0 then None
    else if steps[i - 1].on then NextRoot(CanonicalOf(steps[i - 1]), InvertRoot(steps, i - 1))
    else InvertRoot(steps, i - 1)
  }

  // A column of the angular grid, or a recorded one with as many entries as the residual.
  predicate SourceFits(c: Col, seeds: Columns<real>, n: int)
    requires seeds.Keys == SEED_COLUMNS
  {
    KindOf(c) != FullRate || Recorded(seeds, c) >= n
  }

  predicate Inverts(work: Columns<real>, root: Option<Col>, seeds: Columns<real>, n: int)
    requires seeds.Keys == SEED_COLUMNS
  {
    match root
    case None => Inverted !in work
    case Some(c) => Inverted in work && (|work[Inverted]| >= n <==> SourceFits(c, seeds, n))
  }

  lemma InvertReads(lib: Library, th: Threads, c: Canonical, work: Columns<real>, p: Params, ins: Resolved, out: Produced<real>)
    requires c.op == Invert && Effective(th, c.params) == Ok(p) && InvertStep(lib, Restrict(p, Invert), work, ins) == Ok(out)
    ensures var k := SourceOf(c.params); k in work && out.cols.Keys == {Inverted} && out.cut.None? && |out.cols[Inverted]| == |work[k]|
  {
    assert Source in c.params <==> Source in p;
  }

  // The angular columns are at least as long as the residual is or will be.
  lemma AngularIsLongEnough(work: Columns<real>, revs: seq<real>, rate: int, k: Col)
    requires Stage(work, revs, rate) && k in work && KindOf(k) != FullRate && k != Inverted
    ensures |work[k]| >= WholeLength(revs, rate)
  {
    if TsaResid in work {
      LongEnough(work, revs, rate, k);
    } else {
      assert KindOf(k) == Inversion ==> k == Inverted;
      WholeIsWithin(revs, rate);
    }
  }

  lemma WholeIsWithin(revs: seq<real>, rate: int)
    requires rate >= 1 && |revs| >= 2 && Angular.GridSize(revs, rate) >= 1
    ensures WholeLength(revs, rate) <= Angular.GridSize(revs, rate)
  {
    Angular.WholeFits(Angular.GridSize(revs, rate), rate);
  }

  lemma InvertKeeps(lib: Library, th: Threads, c: Canonical, work: Columns<real>, p: Params, ins: Resolved, out: Produced<real>,
                    seeds: Columns<real>, rate: int, root: Option<Col>)
    requires seeds.Keys == SEED_COLUMNS && Stage(work, seeds[Revs], rate) && FullRateKept(work, seeds)
    requires Inverts(work, root, seeds, WholeLength(seeds[Revs], rate))
    requires c.op == Invert && Effective(th, c.params) == Ok(p) && InvertStep(lib, Restrict(p, Invert), work, ins) == Ok(out)
    ensures Inverts(Merge(work, out), NextRoot(c, root), seeds, WholeLength(seeds[Revs], rate))
  {
    InvertReads(lib, th, c, work, p, ins, out);
    var k := SourceOf(c.params);
    if k != Inverted && KindOf(k) != FullRate {
      AngularIsLongEnough(work, seeds[Revs], rate, k);
    }
  }

  // The cut takes an inversion that is long enough to the residual's length, and leaves a shorter one.
  lemma OtherStepKeeps(lib: Library, c: Canonical, p: Params, work: Columns<real>, ins: Resolved, out: Produced<real>,
                       seeds: Columns<real>, root: Option<Col>, n: int)
    requires seeds.Keys == SEED_COLUMNS && Inverts(work, root, seeds, n) && Ran(lib, c, p, work, ins, out) && c.op != Invert
    requires out.cut.Some? ==> out.cut.value == n
    ensures Inverts(Merge(work, out), root, seeds, n)
  {
    if Inverted in out.cols {
      FullRateProducers(c.op, Inverted);
    } else if Inverted in work {
      MergeLeaves(work, out, Inverted);
    }
  }

  // tsa asks for a cut to the whole revolutions of the grid.
  lemma CutIsWhole(p: Params, work: Columns<real>, out: Produced<real>, revs: seq<real>, rate: int)
    requires TsaStep(p, work) == Ok(out) && Stage(Merge(work, out), revs, rate)
    ensures out.cut == Some(WholeLength(revs, rate))
  {
    TsaCuts(p, work, out);
    CutLength(work + out.cols, out.cut.value, TsaResid);
    ResidualIsWhole(Merge(work, out), revs, rate);
  }

  lemma TsaCuts(p: Params, work: Columns<real>, out: Produced<real>)
    requires TsaStep(p, work) == Ok(out)
    ensures out.cols.Keys == {TsaResid} && out.cut == Some(|out.cols[TsaResid]|)
  {
  }

  lemma ResidualIsWhole(work: Columns<real>, revs: seq<real>, rate: int)
    requires Stage(work, revs, rate) && TsaResid in work
    ensures |work[TsaResid]| == WholeLength(revs, rate)
  {
  }

  lemma StepKeepsInversion(lib: Library, th: Threads, c: Canonical, work: Columns<real>, p: Params, ins: Resolved,
                           out: Produced<real>, seeds: Columns<real>, rate: int, root: Option<Col>)
    requires seeds.Keys == SEED_COLUMNS && Effective(th, c.params) == Ok(p) && Ran(lib, c, p, work, ins, out)
    requires Stage(work, seeds[Revs], rate) && Stage(Merge(work, out), seeds[Revs], rate) && FullRateKept(work, seeds)
    requires Inverts(work, root, seeds, WholeLength(seeds[Revs], rate))
    ensures Inverts(Merge(work, out), NextRoot(c, root), seeds, WholeLength(seeds[Revs], rate))
  {
    if c.op == Invert {
      InvertKeeps(lib, th, c, work, p, ins, out, seeds, rate, root);
    } else {
      if c.op == Tsa {
        CutIsWhole(Restrict(p, Tsa), work, out, seeds[Revs], rate);
      }
      OtherStepKeeps(lib, c, p, work, ins, out, seeds, root, WholeLength(seeds[Revs], rate));
    }
  }

  // What a run of the first i steps leaves of the two.
  predicate Reaches(steps: seq<Step>, i: nat, work: Columns<real>, seeds: Columns<real>)
    requires i <= |steps| && seeds.Keys == SEED_COLUMNS
  {
    FullRateKept(work, seeds) && Inverts(work, InvertRoot(steps, i), seeds, WholeLength(seeds[Revs], GridRate(ThreadsOf(steps))))
  }

  // The step after a run that got that far gets one further.
  predicate ReachesNext(env: Env<real>, steps: seq<Step>, i: nat, work: Columns<real>, seeds: Columns<real>)
    requires i < |steps| && seeds.Keys == SEED_COLUMNS
  {
    Reaches(steps, i, work, seeds) && RunStep(env, ThreadsOf(steps), steps[i], work).Ok? ==>
      Reaches(steps, i + 1, RunStep(env, ThreadsOf(steps), steps[i], work).value, seeds)
  }

  ghost predicate KeepsReaching(env: Env<real>, steps: seq<Step>, seeds: Columns<real>)
    requires seeds.Keys == SEED_COLUMNS
  {
    forall i :: 0 <= i < |steps| && RunRange(env, steps, 0, i, seeds).Ok? ==>
      ReachesNext(env, steps, i, RunRange(env, steps, 0, i, seeds).value, seeds)
  }

  lemma RegisteredKeepsReaching(lib: Library, layers: LayerSet, env: Env<real>, steps: seq<Step>, seeds: Columns<real>)
    requires env == Registered(lib, layers) && Accepts(steps) && OneGrid(steps) && seeds.Keys == SEED_COLUMNS
    requires ThreadsOf(steps).resample.Some?
    ensures KeepsReaching(env, steps, seeds)
  {
    forall i | 0 <= i < |steps| && RunRange(env, steps, 0, i, seeds).Ok?
      ensures ReachesNext(env, steps, i, RunRange(env, steps, 0, i, seeds).value, seeds)
    {
      var work := RunRange(env, steps, 0, i, seeds).value;
      if Reaches(steps, i, work, seeds) && RunStep(env, ThreadsOf(steps), steps[i], work).Ok? {
        NextInverts(lib, layers, env, steps, i, seeds);
      }
    }
  }

  lemma {:induction false} RunInverts(env: Env<real>, steps: seq<Step>, i: nat, seeds: Columns<real>)
    requires seeds.Keys == SEED_COLUMNS && i <= |steps| && KeepsReaching(env, steps, seeds) && RunRange(env, steps, 0, i, seeds).Ok?
    ensures Reaches(steps, i, RunRange(env, steps, 0, i, seeds).value, seeds)
  {
    if i == 0 {
      NothingInverted(steps, seeds);
    } else {
      RunRangeStep(env, steps, 0, i - 1, seeds);
      RunInverts(env, steps, i - 1, seeds);
    }
  }

  lemma NextInverts(lib: Library, layers: LayerSet, env: Env<real>, steps: seq<Step>, i: nat, seeds: Columns<real>)
    requires env == Registered(lib, layers) && Accepts(steps) && OneGrid(steps) && seeds.Keys == SEED_COLUMNS && i < |steps|
    requires ThreadsOf(steps).resample.Some? && RunRange(env, steps, 0, i, seeds).Ok?
    requires Reaches(steps, i, RunRange(env, steps, 0, i, seeds).value, seeds)
    requires RunStep(env, ThreadsOf(steps), steps[i], RunRange(env, steps, 0, i, seeds).value).Ok?
    ensures Reaches(steps, i + 1, RunStep(env, ThreadsOf(steps), steps[i], RunRange(env, steps, 0, i, seeds).value).value, seeds)
  {
    if steps[i].on {
      StepInverts(lib, layers, env, steps, i, seeds);
    } else {
      SkippedInverts(steps, i, RunRange(env, steps, 0, i, seeds).value, seeds);
    }
  }

  lemma NothingInverted(steps: seq<Step>, seeds: Columns<real>)
    requires seeds.Keys == SEED_COLUMNS
    ensures Reaches(steps, 0, seeds, seeds)
  {
  }

  lemma SkippedInverts(steps: seq<Step>, i: nat, work: Columns<real>, seeds: Columns<real>)
    requires i < |steps| && seeds.Keys == SEED_COLUMNS && !steps[i].on && Reaches(steps, i, work, seeds)
    ensures Reaches(steps, i + 1, work, seeds)
  {
  }

  lemma StepInverts(lib: Library, layers: LayerSet, env: Env<real>, steps: seq<Step>, i: nat, seeds: Columns<real>)
    requires env == Registered(lib, layers) && Accepts(steps) && OneGrid(steps) && seeds.Keys == SEED_COLUMNS && i < |steps|
    requires ThreadsOf(steps).resample.Some? && steps[i].on && RunRange(env, steps, 0, i, seeds).Ok?
    requires Reaches(steps, i, RunRange(env, steps, 0, i, seeds).value, seeds)
    requires Apply(env, ThreadsOf(steps), CanonicalOf(steps[i]), RunRange(env, steps, 0, i, seeds).value).Ok?
    ensures Reaches(steps, i + 1, Apply(env, ThreadsOf(steps), CanonicalOf(steps[i]), RunRange(env, steps, 0, i, seeds).value).value, seeds)
  {
    var th, c, work := ThreadsOf(steps), CanonicalOf(steps[i]), RunRange(env, steps, 0, i, seeds).value;
    StagedStep(lib, layers, env, steps, i, seeds);
    var p, ins, out := Applied(lib, layers, th, c, work);
    StepKeepsFullRate(lib, c, p, work, ins, out, seeds);
    StepKeepsInversion(lib, th, c, work, p, ins, out, seeds, GridRate(th), InvertRoot(steps, i));
  }

  lemma StagedStep(lib: Library, layers: LayerSet, env: Env<real>, steps: seq<Step>, i: nat, seeds: Columns<real>)
    requires env == Registered(lib, layers) && Accepts(steps) && OneGrid(steps) && seeds.Keys == SEED_COLUMNS && i < |steps|
    requires ThreadsOf(steps).resample.Some? && steps[i].on && RunRange(env, steps, 0, i, seeds).Ok?
    requires Apply(env, ThreadsOf(steps), CanonicalOf(steps[i]), RunRange(env, steps, 0, i, seeds).value).Ok?
    ensures var work := RunRange(env, steps, 0, i, seeds).value;
      && Needs(steps[i].op) <= work.Keys
      && Stage(work, seeds[Revs], GridRate(ThreadsOf(steps)))
      && Stage(Apply(env, ThreadsOf(steps), CanonicalOf(steps[i]), work).value, seeds[Revs], GridRate(ThreadsOf(steps)))
  {
    var th, c, work := ThreadsOf(steps), CanonicalOf(steps[i]), RunRange(env, steps, 0, i, seeds).value;
    RegisteredKeepsContract(lib, layers);
    RegisteredKeepsStage(lib, layers, th, seeds[Revs]);
    RunKeepsStage(env, steps, i, seeds);
    WorkHoldsHave(env, steps, i, seeds);
    StepFits(steps, i, work);
    StepKeepsStage(lib, layers, th, c, work, seeds[Revs]);
  }

  // ---- the contract ----

  /**
   The output contract, exactly: a full run of a recipe with one grid returns every public column, all but
   `inverted` of one length, the whole revolutions of that grid; and `inverted` has it if and only if there was no
   inversion, or the last one goes back to an angular column or to a recorded one that is long enough.
   */
  lemma PublicColumnsAgreeExactly(lib: Library, layers: LayerSet, env: Env<real>, steps: seq<Step>, seeds: Columns<real>, stop: Option<nat>)
    returns (rate: nat, n: nat)
    requires env == Registered(lib, layers) && OneGrid(steps) && seeds.Keys == SEED_COLUMNS
    requires RunSpec(env, steps, seeds, None, stop, None).Ok?
    ensures rate >= 1 && n >= rate && n % rate == 0
    ensures rate == GridRate(ThreadsOf(steps)) && n == WholeLength(seeds[Revs], rate)
    ensures var out := RunSpec(env, steps, seeds, None, stop, None).value;
      && (forall c :: c in PUBLIC_COLUMNS <==> c in out)
      && (forall c :: c in out && c != Inverted ==> |out[c]| == n)
      && (|out[Inverted]| == n <==>
            InvertRoot(steps, High(steps, stop)).None? || SourceFits(InvertRoot(steps, High(steps, stop)).value, seeds, n))
  {
    var hi := High(steps, stop);
    var work := RunRange(env, steps, 0, hi, seeds).value;
    RunStages(lib, layers, env, steps, seeds, hi);
    RegisteredKeepsReaching(lib, layers, env, steps, seeds);
    RunInverts(env, steps, hi, seeds);
    rate := GridRate(ThreadsOf(steps));
    n := Contract(env, steps, hi, work, seeds, rate);
  }

  lemma Contract(env: Env<real>, steps: seq<Step>, hi: nat, work: Columns<real>, seeds: Columns<real>, rate: int) returns (n: nat)
    requires hi <= |steps| && seeds.Keys == SEED_COLUMNS && rate == GridRate(ThreadsOf(steps))
    requires TsaResid in work && Stage(work, seeds[Revs], rate) && Reaches(steps, hi, work, seeds)
    ensures 1 <= rate <= n && n % rate == 0 && n == WholeLength(seeds[Revs], rate) && Assemble(env, work).Ok?
    ensures var out := Assemble(env, work).value;
      && (forall c :: c in PUBLIC_COLUMNS <==> c in out)
      && (forall c :: c in out && c != Inverted ==> |out[c]| == n)
      && (|out[Inverted]| == n <==> InvertRoot(steps, hi).None? || SourceFits(InvertRoot(steps, hi).value, seeds, n))
  {
    n := Assembled(env, work, seeds[Revs], rate);
  }

  // invert's source is produced from the angular grid onwards, not a full-rate column.
  predicate AngularSources(steps: seq<Step>) {
    forall i :: 0 <= i < |steps| && steps[i].op == Invert ==> KindOf(SourceOf(steps[i].params)) != FullRate
  }

  lemma {:induction false} AngularRoot(steps: seq<Step>, i: nat)
    requires AngularSources(steps) && i <= |steps|
    ensures InvertRoot(steps, i).Some? ==> KindOf(InvertRoot(steps, i).value) != FullRate
  {
    if i > 0 {
      AngularRoot(steps, i - 1);
    }
  }

  // So with angular sources all public columns have one length.
  lemma PublicColumnsAgree(lib: Library, layers: LayerSet, env: Env<real>, steps: seq<Step>, seeds: Columns<real>, stop: Option<nat>)
    returns (rate: nat, n: nat)
    requires env == Registered(lib, layers) && OneGrid(steps) && AngularSources(steps) && seeds.Keys == SEED_COLUMNS
    requires RunSpec(env, steps, seeds, None, stop, None).Ok?
    ensures rate >= 1 && n >= rate && n % rate == 0
    ensures rate == GridRate(ThreadsOf(steps)) && n == WholeLength(seeds[Revs], rate)
    ensures var out := RunSpec(env, steps, seeds, None, stop, None).value;
      && (forall c :: c in PUBLIC_COLUMNS <==> c in out)
      && forall c :: c in out ==> |out[c]| == n
  {
    AngularRoot(steps, High(steps, stop));
    rate, n := PublicColumnsAgreeExactly(lib, layers, env, steps, seeds, stop);
  }

  // As they do in every run of the default recipe that returns.
  lemma DefaultColumnsAgree()
    ensures Accepts(DefaultRecipe()) && OneGrid(DefaultRecipe()) && AngularSources(DefaultRecipe())
  {
    DefaultHasOneGrid();
    forall i | 0 <= i < 7
      ensures DefaultRecipe()[i].op != Invert
    {
      DefaultGrid(i);
    }
  }
}
