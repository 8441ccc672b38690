/** scripts/diag/runner.py: the executor. */
module Runner {
  // It is generic in the element type of a column and in the step functions, which enter as an `Env`;
  // module Ops supplies the registered ones.

  import opened Wrappers
  import opened Recipe
  import opened Registry

  // What a step function hands back; `cut` is the "__truncate__" entry, popped by the runner.
  datatype Produced<V> = Produced(cols: Columns<V>, cut: Option<nat>)

  datatype Env<!V> = Env(
    step: (Op, Params, Columns<V>, Resolved) -> Result<Produced<V>, RunError>,
    resolve: (Op, map<string, Binding>, Option<seq<V>>, Option<seq<V>>) -> Result<Resolved, RunError>,
    fill: Col -> V)

  const PUBLIC_COLUMNS: seq<Col> := [
    T, Rev, X, Y, TsaResid, ResidZ, GiStar, GiSig, ClusterId, Glosh, EnvBand, SegmentId,
    Inverted, GridFill, GridSupport, GmmId, GmmProb
  ]

  const TRUNCATABLE: set<Col> := {
    T, Rev, X, Y, TsaResid, ResidZ, GiStar, GiSig, ClusterId, Glosh, EnvBand, SegmentId,
    Inverted, GridFill, GridSupport, GmmId, GmmProb
  }

  function Truncate<V>(cols: Columns<V>, n: nat): (r: Columns<V>)
    ensures r.Keys == cols.Keys
  {
    map c | c in cols :: if c in TRUNCATABLE && |cols[c]| >= n then cols[c][..n] else cols[c]
  }

  // `int(v)` on a JSON value; anything that is not a number raises.
  function IntOf(p: Param): Result<int, RunError> {
    match p
    case PInt(i) => Ok(i)
    case PReal(r) => Ok(if r >= 0.0 then r.Floor else -(-r).Floor)
    case _ => Err(Failed)
  }

  // Towards zero.
  lemma IntTruncates(r: real)
    ensures var n := IntOf(PReal(r)).value as real;
            if r >= 0.0 then 0.0 <= n <= r < n + 1.0 else n - 1.0 < r <= n <= 0.0
  {
  }

  // The parameters a step inherits: those of the first angular_resample and frame_transform listed.
  datatype Threads = Threads(resample: Option<Params>, frame: Option<Params>)

  function ThreadsOf(steps: seq<Step>): Threads {
    Threads(FirstParams(steps, AngularResample), FirstParams(steps, FrameTransform))
  }

  // samples_per_rev is threaded from angular_resample, channel from frame_transform (runner.py:200-209).
  function Effective(th: Threads, p: Params): Result<Params, RunError> {
    var rate :-
      if SamplesPerRev !in p && th.resample.Some? && SamplesPerRev in th.resample.value then
        var n :- IntOf(th.resample.value[SamplesPerRev]);
        Ok(p[SamplesPerRev := PInt(n)])
      else Ok(p);
    Ok(if Channel !in rate && th.frame.Some? then
         rate[Channel := if Channel in th.frame.value then th.frame.value[Channel] else PName(Fp)]
       else rate)
  }

  function Lookup<V>(cols: Columns<V>, c: Col): Option<seq<V>> {
    if c in cols then Some(cols[c]) else None
  }

  function Merge<V>(work: Columns<V>, out: Produced<V>): Columns<V> {
    if out.cut.Some? then Truncate(work + out.cols, out.cut.value) else work + out.cols
  }

  // One enabled step: resolve its layers, call its function, merge, truncate.
  function Apply<V>(env: Env<V>, th: Threads, s: Canonical, work: Columns<V>): Result<Columns<V>, RunError> {
    var params :- Effective(th, s.params);
    var inputs :- env.resolve(s.op, s.inputs, Lookup(work, X), Lookup(work, Y));
    var out :- env.step(s.op, params, work, inputs);
    Ok(Merge(work, out))
  }

  function RunStep<V>(env: Env<V>, th: Threads, s: Step, work: Columns<V>): Result<Columns<V>, RunError> {
    if s.on then Apply(env, th, CanonicalOf(s), work) else Ok(work)
  }

  // The work dict after steps lo..hi-1 of the list.
  function RunRange<V>(env: Env<V>, steps: seq<Step>, lo: nat, hi: nat, work: Columns<V>): Result<Columns<V>, RunError>
    requires hi <= |steps|
  {
    if hi <= lo then Ok(work)
    else
      var before :- RunRange(env, steps, lo, hi - 1, work);
      RunStep(env, ThreadsOf(steps), steps[hi - 1], before)
  }

  // The public column set, assembled at the length of tsa_resid.
  function Assemble<V>(env: Env<V>, work: Columns<V>): Result<Columns<V>, RunError> {
    if TsaResid !in work then Err(NoAngularLength)
    else
      var n := |work[TsaResid]|;
      Ok(map c: Col | c in PUBLIC_COLUMNS ::
           if c in work then (if |work[c]| >= n then work[c][..n] else work[c])
           else seq(n, i => env.fill(c)))
  }

  // emit=(...): exactly the named columns, at their natural length.
  function Emit<V>(work: Columns<V>, names: seq<Col>): Result<Columns<V>, RunError> {
    if names == [] then Ok(map[])
    else
      var rest :- Emit(work, names[..|names| - 1]);
      var c := names[|names| - 1];
      if c in work then Ok(rest[c := work[c]]) else Err(NotPresent(c))
  }

  function Low(from: Option<nat>): nat {
    if from.Some? then from.value else 0
  }

  function High(steps: seq<Step>, stop: Option<nat>): (h: nat)
    ensures h <= |steps|
  {
    if stop.Some? && stop.value < |steps| then stop.value + 1 else |steps|
  }

  function RunSpec<V>(env: Env<V>, steps: seq<Step>, cols: Columns<V>, from: Option<nat>, stop: Option<nat>,
                      emit: Option<seq<Col>>): Result<Columns<V>, RunError>
  {
    if !Accepts(steps) then Err(Rejected)
    else
      var work :- RunRange(env, steps, Low(from), High(steps, stop), cols);
      if emit.Some? then Emit(work, emit.value) else Assemble(env, work)
  }

  lemma RunRangeStep<V>(env: Env<V>, steps: seq<Step>, lo: nat, i: nat, work: Columns<V>)
    requires lo <= i < |steps|
    ensures var before := RunRange(env, steps, lo, i, work);
      RunRange(env, steps, lo, i + 1, work) ==
      if before.Err? then before else RunStep(env, ThreadsOf(steps), steps[i], before.value)
  {
  }

  method RunRecipe<V>(env: Env<V>, steps: seq<Step>, cols: Columns<V>, from: Option<nat>, stop: Option<nat>,
                      emit: Option<seq<Col>>) returns (r: Result<Columns<V>, RunError>)
    ensures r == RunSpec(env, steps, cols, from, stop, emit)
  {
    var verdict := ValidateRecipe(steps);
    if verdict.Err? {
      return Err(Rejected);
    }
    var work := RunSteps(env, steps, cols, from, stop);
    if work.Err? {
      return Err(work.error);
    }
    if emit.Some? {
      r := Emit(work.value, emit.value);
    } else {
      r := Assemble(env, work.value);
    }
  }

  // The step loop of run_recipe.
  method RunSteps<V>(env: Env<V>, steps: seq<Step>, cols: Columns<V>, from: Option<nat>, stop: Option<nat>)
    returns (r: Result<Columns<V>, RunError>)
    ensures r == RunRange(env, steps, Low(from), High(steps, stop), cols)
  {
    var th := ThreadsOf(steps);
    var work := cols;
    var i := 0;
    while i < |steps|
      invariant 0 <= i <= |steps|
      invariant stop.Some? ==> i <= stop.value + 1 || i <= Low(from)
      invariant RunRange(env, steps, Low(from), i, cols) == Ok(work)
    {
      if from.Some? && i < from.value {
        i := i + 1;
        continue;
      }
      if stop.Some? && i > stop.value {
        break;
      }
      RunRangeStep(env, steps, Low(from), i, cols);
      if steps[i].on {
        var applied := Apply(env, th, CanonicalOf(steps[i]), work);
        if applied.Err? {
          FailurePersists(env, steps, Low(from), i + 1, High(steps, stop), cols);
          return applied;
        }
        work := applied.value;
      }
      i := i + 1;
    }
    assert i == High(steps, stop) || (i <= Low(from) && High(steps, stop) <= Low(from));
    return Ok(work);
  }

  // A step that raises decides the outcome of every longer run.
  lemma {:induction false} FailurePersists<V>(env: Env<V>, steps: seq<Step>, lo: nat, i: nat, hi: nat, work: Columns<V>)
    requires i <= hi <= |steps| && RunRange(env, steps, lo, i, work).Err?
    ensures RunRange(env, steps, lo, hi, work) == RunRange(env, steps, lo, i, work)
    decreases hi
  {
    if i < hi {
      FailurePersists(env, steps, lo, i, hi - 1, work);
    }
  }

  // Stopping after k and resuming from the work dict is the uninterrupted run.
  lemma {:induction false} Resume<V>(env: Env<V>, steps: seq<Step>, k: nat, hi: nat, work: Columns<V>)
    requires k <= hi <= |steps| && RunRange(env, steps, 0, k, work).Ok?
    ensures RunRange(env, steps, k, hi, RunRange(env, steps, 0, k, work).value) == RunRange(env, steps, 0, hi, work)
    decreases hi
  {
    if k < hi {
      Resume(env, steps, k, hi - 1, work);
    }
  }

  // A run that stops after a step includes it: one that starts from the next completes it.
  lemma StopThenStart<V>(env: Env<V>, steps: seq<Step>, k: nat, work: Columns<V>)
    requires k < |steps| && RunRange(env, steps, Low(None), High(steps, Some(k)), work).Ok?
    ensures RunRange(env, steps, Low(Some(k + 1)), High(steps, None), RunRange(env, steps, Low(None), High(steps, Some(k)), work).value) ==
            RunRange(env, steps, Low(None), High(steps, None), work)
    ensures RunRange(env, steps, Low(None), High(steps, None), work) == RunRange(env, steps, 0, |steps|, work)
  {
    Resume(env, steps, k + 1, |steps|, work);
  }
}
