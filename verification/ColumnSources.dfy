/** Where columns come from. */
module ColumnSources {
  // scripts/diag/runner.py: where the columns and the parameters of a run come from.

  import opened Wrappers
  import opened Recipe
  import opened Registry
  import opened Runner
  import opened Ops
  import opened CheckerSoundness

  // ---- columns ----

  // What the function of a step hands back in a given work dict.
  function Output<V>(env: Env<V>, th: Threads, c: Canonical, work: Columns<V>): Result<Produced<V>, RunError> {
    var params :- Effective(th, c.params);
    var inputs :- env.resolve(c.op, c.inputs, Lookup(work, X), Lookup(work, Y));
    env.step(c.op, params, work, inputs)
  }

  // One column holds the first entries of another; only the angular columns may have lost any.
  ghost predicate CutFrom<V>(c: Col, kept: seq<V>, whole: seq<V>) {
    kept <= whole && (c !in TRUNCATABLE ==> kept == whole)
  }

  // An enabled step is called once, with its parameters threaded and its own layers resolved against the grid
  // as it stands; a disabled one changes nothing.
  lemma StepCalls<V>(env: Env<V>, th: Threads, s: Step, work: Columns<V>) returns (p: Params, ins: Resolved, out: Produced<V>)
    requires RunStep(env, th, s, work).Ok?
    ensures s.on ==>
              && Effective(th, s.params) == Ok(p)
              && env.resolve(s.op, s.inputs, if X in work then Some(work[X]) else None, if Y in work then Some(work[Y]) else None) == Ok(ins)
              && env.step(s.op, p, work, ins) == Ok(out) && RunStep(env, th, s, work).value == Merge(work, out)
    ensures !s.on ==> RunStep(env, th, s, work).value == work
  {
    p, ins, out := map[], map[], Produced(work, None);
    if s.on {
      p := Effective(th, s.params).value;
      ins := env.resolve(s.op, s.inputs, Lookup(work, X), Lookup(work, Y)).value;
      out := env.step(s.op, p, work, ins).value;
    }
  }

  // A step replaces what it hands back and cuts the rest.
  lemma AppliedColumn<V>(env: Env<V>, th: Threads, s: Canonical, work: Columns<V>, c: Col)
    requires Apply(env, th, s, work).Ok?
    ensures Output(env, th, s, work).Ok?
    ensures Brings(work, Output(env, th, s, work).value.cols, Apply(env, th, s, work).value, c)
  {
    MergedColumn(work, Output(env, th, s, work).value, c);
  }

  ghost predicate Brings<V>(work: Columns<V>, out: Columns<V>, after: Columns<V>, c: Col) {
    && (c in out ==> c in after && CutFrom(c, after[c], out[c]))
    && (c !in out && c in work ==> c in after && CutFrom(c, after[c], work[c]))
  }

  lemma MergedColumn<V>(work: Columns<V>, out: Produced<V>, c: Col)
    ensures Brings(work, out.cols, Merge(work, out), c)
  {
  }

  lemma StepKeepsColumn<V(!new)>(env: Env<V>, th: Threads, s: Step, work: Columns<V>, c: Col)
    requires KeepsContract(env) && RunStep(env, th, s, work).Ok? && c in work && (s.on ==> c !in Produces(s.op))
    ensures c in RunStep(env, th, s, work).value && CutFrom(c, RunStep(env, th, s, work).value[c], work[c])
  {
    if s.on {
      AppliedColumn(env, th, CanonicalOf(s), work, c);
    }
  }

  // Later steps that do not produce a column can only cut it.
  lemma {:induction false} KeptColumn<V(!new)>(env: Env<V>, steps: seq<Step>, lo: nat, hi: nat, work: Columns<V>, c: Col)
    requires KeepsContract(env) && lo <= hi <= |steps| && RunRange(env, steps, lo, hi, work).Ok? && c in work
    requires forall j :: lo <= j < hi && steps[j].on ==> c !in Produces(steps[j].op)
    ensures c in RunRange(env, steps, lo, hi, work).value
    ensures CutFrom(c, RunRange(env, steps, lo, hi, work).value[c], work[c])
    decreases hi
  {
    if lo < hi {
      KeptColumn(env, steps, lo, hi - 1, work, c);
      StepKeepsColumn(env, ThreadsOf(steps), steps[hi - 1], RunRange(env, steps, lo, hi - 1, work).value, c);
    }
  }

  // Step k is the last of the first hi that brings column c.
  predicate LastToBring(steps: seq<Step>, hi: nat, k: nat, c: Col) {
    && k < hi <= |steps| && steps[k].on && c in Produces(steps[k].op)
    && forall j :: k < j < hi && steps[j].on ==> c !in Produces(steps[j].op)
  }

  // A column of the work dict is what the last step to bring it handed back, but for entries cut off its end.
  lemma {:induction false} WorkColumn<V(!new)>(env: Env<V>, steps: seq<Step>, hi: nat, k: nat, seeds: Columns<V>, c: Col)
    requires KeepsContract(env) && LastToBring(steps, hi, k, c) && RunRange(env, steps, 0, hi, seeds).Ok?
    ensures RunRange(env, steps, 0, k, seeds).Ok?
    ensures var out := Output(env, ThreadsOf(steps), CanonicalOf(steps[k]), RunRange(env, steps, 0, k, seeds).value);
            && out.Ok? && c in out.value.cols && c in RunRange(env, steps, 0, hi, seeds).value
            && CutFrom(c, RunRange(env, steps, 0, hi, seeds).value[c], out.value.cols[c])
  {
    ReachedStep(env, steps, k, hi, seeds);
    var before, after := RunRange(env, steps, 0, k, seeds).value, RunRange(env, steps, 0, k + 1, seeds).value;
    AppliedColumn(env, ThreadsOf(steps), CanonicalOf(steps[k]), before, c);
    Resume(env, steps, k + 1, hi, seeds);
    KeptColumn(env, steps, k + 1, hi, after, c);
  }

  lemma ReachedStep<V>(env: Env<V>, steps: seq<Step>, k: nat, hi: nat, seeds: Columns<V>)
    requires k < hi <= |steps| && RunRange(env, steps, 0, hi, seeds).Ok? && steps[k].on
    ensures RunRange(env, steps, 0, k, seeds).Ok? && RunRange(env, steps, 0, k + 1, seeds).Ok?
    ensures RunRange(env, steps, 0, k + 1, seeds) ==
            Apply(env, ThreadsOf(steps), CanonicalOf(steps[k]), RunRange(env, steps, 0, k, seeds).value)
  {
    if RunRange(env, steps, 0, k + 1, seeds).Err? {
      FailurePersists(env, steps, 0, k + 1, hi, seeds);
    }
    RunRangeStep(env, steps, 0, k, seeds);
  }

  /**
   A public column of a whole run is what the last enabled step that produces it handed back, from its
   first entry on and no longer than the residual.
   */
  lemma {:induction false} ReturnedColumn<V(!new)>(env: Env<V>, steps: seq<Step>, k: nat, seeds: Columns<V>, r: Columns<V>, c: Col)
    requires KeepsContract(env) && RunSpec(env, steps, seeds, None, None, None) == Ok(r)
    requires c in PUBLIC_COLUMNS && LastToBring(steps, |steps|, k, c)
    ensures RunRange(env, steps, 0, k, seeds).Ok? && c in r && TsaResid in r
    ensures var out := Output(env, ThreadsOf(steps), CanonicalOf(steps[k]), RunRange(env, steps, 0, k, seeds).value);
            out.Ok? && c in out.value.cols && r[c] <= out.value.cols[c] && |r[c]| <= |r[TsaResid]|
  {
    var work := RunRange(env, steps, 0, |steps|, seeds).value;
    assert Assemble(env, work) == Ok(r);
    WorkColumn(env, steps, |steps|, k, seeds, c);
    AssembledColumn(env, work, r, c);
  }

  // The first entries of a column, as many as there are up to n.
  ghost predicate UpTo<V>(kept: seq<V>, whole: seq<V>, n: nat) {
    kept <= whole && (|kept| == n || |kept| == |whole| < n)
  }

  // A column of the result: as many first entries as the residual has, or the fill value at its length.
  lemma AssembledColumn<V(!new)>(env: Env<V>, work: Columns<V>, r: Columns<V>, c: Col)
    requires Assemble(env, work) == Ok(r) && c in PUBLIC_COLUMNS
    ensures TsaResid in work && c in r && TsaResid in r && |r[TsaResid]| == |work[TsaResid]|
    ensures c in work ==> UpTo(r[c], work[c], |r[TsaResid]|)
    ensures c !in work ==> |r[c]| == |r[TsaResid]| && forall i :: 0 <= i < |r[c]| ==> r[c][i] == env.fill(c)
  {
    ResidualIsPublic();
  }

  lemma ResidualIsPublic()
    ensures TsaResid in PUBLIC_COLUMNS
  {
    assert PUBLIC_COLUMNS[4] == TsaResid;
  }

  // A column no step brings is filled.
  lemma {:induction false} FilledColumn<V(!new)>(env: Env<V>, steps: seq<Step>, seeds: Columns<V>, r: Columns<V>, c: Col)
    requires KeepsContract(env) && seeds.Keys == SEED_COLUMNS && RunSpec(env, steps, seeds, None, None, None) == Ok(r)
    requires c in PUBLIC_COLUMNS && forall j :: 0 <= j < |steps| && steps[j].on ==> c !in Produces(steps[j].op)
    ensures c in r && TsaResid in r && |r[c]| == |r[TsaResid]| && forall i :: 0 <= i < |r[c]| ==> r[c][i] == env.fill(c)
  {
    var work := RunRange(env, steps, 0, |steps|, seeds).value;
    assert Assemble(env, work) == Ok(r);
    WorkHoldsHave(env, steps, |steps|, seeds);
    assert steps[..|steps|] == steps;
    NeverBrought(steps, c);
    AssembledColumn(env, work, r, c);
  }

  // With -1 for a segment and with 0 for anything else.
  lemma FillValues(lib: Library, layers: LayerSet, c: Col)
    ensures Registered(lib, layers).fill(c) == if c.SegmentId? || c.GmmId? then -1.0 else 0.0
  {
  }

  lemma {:induction false} NeverBrought(steps: seq<Step>, c: Col)
    requires c in PUBLIC_COLUMNS && forall j :: 0 <= j < |steps| && steps[j].on ==> c !in Produces(steps[j].op)
    ensures c !in Have(steps)
  {
    if steps == [] {
      PublicIsNoSeed(c);
    } else {
      assert steps[|steps| - 1].on ==> c !in Produces(steps[|steps| - 1].op);
      NeverBrought(steps[..|steps| - 1], c);
    }
  }

  // The public columns, and the ones a truncation cuts, are those of the steps but for the forces and the signal.
  lemma PublicIsAngularExactly(c: Col)
    ensures c in PUBLIC_COLUMNS <==> c in TRUNCATABLE
    ensures c in PUBLIC_COLUMNS <==> (exists op :: c in Produces(op)) && c !in Produces(FrameTransform) && c != Sig
  {
    ProducerKnown(c);
    if op :| c in Produces(op) {
      ListedOrInternal(op, c);
    }
  }

  lemma ListedOrInternal(op: Op, c: Col)
    requires c in Produces(op)
    ensures c in TRUNCATABLE || c in Produces(FrameTransform) || c == Sig
  {
  }

  // The step behind a public column.
  function SourceOp(c: Col): Option<Op> {
    match c
    case T => Some(AngularResample)
    case Rev => Some(AngularResample)
    case X => Some(AngularResample)
    case Y => Some(AngularResample)
    case TsaResid => Some(Tsa)
    case ResidZ => Some(RadialDetrend)
    case GiStar => Some(GetisOrd)
    case GiSig => Some(GetisOrd)
    case ClusterId => Some(Hdbscan)
    case Glosh => Some(Hdbscan)
    case EnvBand => Some(Envelope)
    case SegmentId => Some(GrowSegmentation)
    case Inverted => Some(Invert)
    case GridFill => Some(Griddify)
    case GridSupport => Some(Griddify)
    case GmmId => Some(GmmSegmentation)
    case GmmProb => Some(GmmSegmentation)
    case _ => None
  }

  lemma ProducerKnown(c: Col)
    ensures c in PUBLIC_COLUMNS <==> c in TRUNCATABLE
    ensures c in TRUNCATABLE ==> (exists op :: c in Produces(op)) && c !in Produces(FrameTransform) && c != Sig
  {
    PublicHasSource(c);
    CutHasSource(c);
    if SourceOp(c).Some? {
      SourceBrings(c);
    }
  }

  lemma PublicHasSource(c: Col)
    ensures c in PUBLIC_COLUMNS <==> SourceOp(c).Some?
  {
  }

  lemma CutHasSource(c: Col)
    ensures c in TRUNCATABLE <==> SourceOp(c).Some?
  {
  }

  lemma SourceBrings(c: Col)
    requires SourceOp(c).Some?
    ensures c in Produces(SourceOp(c).value) && c !in Produces(FrameTransform) && c != Sig
  {
  }

  lemma PublicIsNoSeed(c: Col)
    requires c in PUBLIC_COLUMNS
    ensures c !in SEED_COLUMNS
  {
  }

  // ---- emitted columns ----

  // Exactly the named columns as they are, or the first name that is missing.
  lemma {:induction false} EmittedColumns<V>(work: Columns<V>, names: seq<Col>)
    ensures Emit(work, names).Ok? <==> forall i :: 0 <= i < |names| ==> names[i] in work
    ensures Emit(work, names).Ok? ==>
              var r := Emit(work, names).value;
              (forall c :: c in r <==> c in names) && (forall c :: c in names ==> r[c] == work[c])
    ensures Emit(work, names).Err? ==>
              exists i :: 0 <= i < |names| && Emit(work, names).error == NotPresent(names[i]) && names[i] !in work &&
                          forall j :: 0 <= j < i ==> names[j] in work
  {
    if names != [] {
      var init, last := names[..|names| - 1], names[|names| - 1];
      EmittedColumns(work, init);
      assert forall i :: 0 <= i < |init| ==> init[i] == names[i];
      assert forall c :: c in names <==> c in init || c == last;
    }
  }

  // ---- parameters ----

  // The first step of the list running op, enabled or not.
  predicate IsFirst(steps: seq<Step>, i: nat, op: Op) {
    i < |steps| && steps[i].op == op && forall j :: 0 <= j < i ==> steps[j].op != op
  }

  lemma {:induction false} FirstParamsAre(steps: seq<Step>, i: nat, op: Op)
    ensures IsFirst(steps, i, op) ==> FirstParams(steps, op) == Some(steps[i].params)
    ensures (forall j :: 0 <= j < |steps| ==> steps[j].op != op) ==> FirstParams(steps, op) == None
  {
    if steps != [] {
      FirstParamsAre(steps[1..], if i > 0 then i - 1 else 0, op);
    }
  }

  // A step keeps its own parameters; it inherits at most the rate and the channel.
  lemma OwnParams(steps: seq<Step>, p: Params, q: Params)
    requires Effective(ThreadsOf(steps), p) == Ok(q)
    ensures forall k :: k in p ==> k in q && q[k] == p[k]
    ensures forall k :: k in q && k !in p ==> k in {SamplesPerRev, Channel}
  {
  }

  // The channel comes from the first frame_transform of the list, which stands for the feed plane if it names none.
  lemma InheritedChannel(steps: seq<Step>, p: Params, q: Params, i: nat)
    requires Effective(ThreadsOf(steps), p) == Ok(q) && Channel !in p
    ensures IsFirst(steps, i, FrameTransform) ==>
              Channel in q && q[Channel] == if Channel in steps[i].params then steps[i].params[Channel] else PName(Fp)
    ensures (forall j :: 0 <= j < |steps| ==> steps[j].op != FrameTransform) ==> Channel !in q
  {
    FirstParamsAre(steps, i, FrameTransform);
  }

  // The rate comes from the first angular_resample of the list, if that gives one.
  lemma InheritedRate(steps: seq<Step>, p: Params, q: Params, i: nat)
    requires Effective(ThreadsOf(steps), p) == Ok(q) && SamplesPerRev !in p
    ensures IsFirst(steps, i, AngularResample) && SamplesPerRev in steps[i].params ==>
              IntOf(steps[i].params[SamplesPerRev]).Ok? && SamplesPerRev in q
              && q[SamplesPerRev] == PInt(IntOf(steps[i].params[SamplesPerRev]).value)
    ensures IsFirst(steps, i, AngularResample) && SamplesPerRev !in steps[i].params ==> SamplesPerRev !in q
    ensures (forall j :: 0 <= j < |steps| ==> steps[j].op != AngularResample) ==> SamplesPerRev !in q
  {
    FirstParamsAre(steps, i, AngularResample);
  }
}
