/** Reuse of a recipe's prefix. */
module PrefixCache {
  // When a cached prefix may be resumed by another recipe. prefix_hash identifies a prefix by the canonical
  // form of its enabled steps; a step's behaviour also depends on the parameters the runner threads in from the
  // first angular_resample and frame_transform of the whole list.

  import opened Wrappers
  import opened Recipe
  import opened Registry
  import opened Runner
  import opened Ops
  import opened SmallRecording

  // What an enabled step can see of its parameters, once the runner has threaded the others in.
  function Seen(th: Threads, c: Canonical): Result<Params, RunError> {
    var p :- Effective(th, c.params);
    Ok(Restrict(p, c.op))
  }

  // Step functions whose result depends on no parameter but the ones the op declares.
  ghost predicate ReadsOnlyDeclared<V(!new)>(env: Env<V>) {
    forall op, p, q, cols, ins :: Restrict(p, op) == Restrict(q, op) ==> env.step(op, p, cols, ins) == env.step(op, q, cols, ins)
  }

  // The two lists thread the same parameters into every step of a shared payload.
  predicate SameThreading(a: Threads, b: Threads, payload: seq<Canonical>) {
    forall j :: 0 <= j < |payload| ==> Seen(a, payload[j]) == Seen(b, payload[j])
  }

  // The work dict after running a payload.
  function RunPayload<V>(env: Env<V>, th: Threads, payload: seq<Canonical>, work: Columns<V>): Result<Columns<V>, RunError> {
    if payload == [] then Ok(work)
    else
      var before :- RunPayload(env, th, payload[..|payload| - 1], work);
      Apply(env, th, payload[|payload| - 1], before)
  }

  lemma PayloadStep(steps: seq<Step>, k: nat)
    requires 0 < k <= |steps|
    ensures Payload(steps, k) == Payload(steps, k - 1) + (if steps[k - 1].on then [CanonicalOf(steps[k - 1])] else [])
  {
    assert steps[..k][..k - 1] == steps[..k - 1];
  }

  lemma RunPayloadSnoc<V>(env: Env<V>, th: Threads, payload: seq<Canonical>, c: Canonical, work: Columns<V>)
    ensures var before := RunPayload(env, th, payload, work);
      RunPayload(env, th, payload + [c], work) == if before.Ok? then Apply(env, th, c, before.value) else before
  {
    assert (payload + [c])[..|payload|] == payload;
  }

  // The executor, run over a prefix, sees nothing but its payload and the threaded parameters.
  lemma {:induction false} PrefixRunsPayload<V>(env: Env<V>, steps: seq<Step>, k: nat, work: Columns<V>)
    requires k <= |steps|
    ensures RunRange(env, steps, 0, k, work) == RunPayload(env, ThreadsOf(steps), Payload(steps, k), work)
  {
    var th := ThreadsOf(steps);
    if k == 0 {
      assert Payload(steps, 0) == [];
    } else {
      PrefixRunsPayload(env, steps, k - 1, work);
      PayloadStep(steps, k);
      var before := RunRange(env, steps, 0, k - 1, work);
      assert RunRange(env, steps, 0, k, work) == if before.Ok? then RunStep(env, th, steps[k - 1], before.value) else before;
      if steps[k - 1].on {
        RunPayloadSnoc(env, th, Payload(steps, k - 1), CanonicalOf(steps[k - 1]), work);
      } else {
        assert Payload(steps, k) == Payload(steps, k - 1);
      }
    }
  }

  lemma ApplyDependsOnSeen<V(!new)>(env: Env<V>, a: Threads, b: Threads, c: Canonical, work: Columns<V>)
    requires ReadsOnlyDeclared(env) && Seen(a, c) == Seen(b, c)
    ensures Apply(env, a, c, work) == Apply(env, b, c, work)
  {
    var p, q := Effective(a, c.params), Effective(b, c.params);
    if p.Ok? {
      assert q.Ok? && Restrict(p.value, c.op) == Restrict(q.value, c.op);
      var ins := env.resolve(c.op, c.inputs, Lookup(work, X), Lookup(work, Y));
      if ins.Ok? {
        assert env.step(c.op, p.value, work, ins.value) == env.step(c.op, q.value, work, ins.value);
      }
    } else {
      assert q.Err?;
      EffectiveFailsOneWay(a, c.params);
      EffectiveFailsOneWay(b, c.params);
    }
  }

  lemma EffectiveFailsOneWay(th: Threads, p: Params)
    ensures Effective(th, p).Err? ==> Effective(th, p).error == Failed
  {
  }

  lemma {:induction false} SameThreadingSameWork<V(!new)>(env: Env<V>, a: Threads, b: Threads, payload: seq<Canonical>, work: Columns<V>)
    requires ReadsOnlyDeclared(env) && SameThreading(a, b, payload)
    ensures RunPayload(env, a, payload, work) == RunPayload(env, b, payload, work)
    decreases |payload|
  {
    if payload != [] {
      var n := |payload| - 1;
      var init := payload[..n];
      assert forall j :: 0 <= j < n ==> init[j] == payload[j];
      SameThreadingSameWork(env, a, b, init, work);
      var before := RunPayload(env, a, init, work);
      if before.Ok? {
        ApplyDependsOnSeen(env, a, b, payload[n], before.value);
      }
    }
  }

  // Resuming `second` after its step kB from what `first` left after its step kA is the second's own full run.
  lemma {:induction false} ReuseIsSound<V(!new)>(env: Env<V>, first: seq<Step>, kA: nat, second: seq<Step>, kB: nat,
                                                 seeds: Columns<V>, stop: Option<nat>, emit: Option<seq<Col>>)
    requires ReadsOnlyDeclared(env)
    requires kA <= |first| && kB <= |second| && Payload(first, kA) == Payload(second, kB)
    requires SameThreading(ThreadsOf(first), ThreadsOf(second), Payload(first, kA))
    requires RunRange(env, first, 0, kA, seeds).Ok?
    requires stop.Some? ==> kB <= stop.value + 1
    ensures RunSpec(env, second, RunRange(env, first, 0, kA, seeds).value, Some(kB), stop, emit)
         == RunSpec(env, second, seeds, None, stop, emit)
  {
    var payload := Payload(first, kA);
    PrefixRunsPayload(env, first, kA, seeds);
    PrefixRunsPayload(env, second, kB, seeds);
    SameThreadingSameWork(env, ThreadsOf(first), ThreadsOf(second), payload, seeds);
    Resume(env, second, kB, High(second, stop), seeds);
  }

  // ---- and only then: step functions that record what they see tell the two recipes apart ----

  datatype Entry = Entry(op: Op, seen: Params)

  function Record(op: Op, p: Params, cols: Columns<Entry>): Columns<Entry> {
    map[T := (if T in cols then cols[T] else []) + [Entry(op, Restrict(p, op))]]
  }

  function Recorder(): Env<Entry> {
    Env(
      (op, p, cols, ins) => Ok(Produced(Record(op, p, cols), None)),
      (op, inputs, x, y) => Ok(map[]),
      c => Entry(Tsa, map[]))
  }

  lemma RecorderReadsOnlyDeclared()
    ensures ReadsOnlyDeclared(Recorder())
  {
  }

  lemma RecorderApply(th: Threads, c: Canonical, work: Columns<Entry>)
    requires T in work
    ensures var r := Apply(Recorder(), th, c, work);
      && (r.Ok? <==> Seen(th, c).Ok?)
      && (r.Ok? ==> T in r.value && r.value[T] == work[T] + [Entry(c.op, Seen(th, c).value)])
  {
  }

  lemma {:induction false} RecorderLog(th: Threads, payload: seq<Canonical>, work: Columns<Entry>)
    requires T in work && work[T] == []
    ensures RunPayload(Recorder(), th, payload, work).Ok? <==> forall j :: 0 <= j < |payload| ==> Seen(th, payload[j]).Ok?
    ensures RunPayload(Recorder(), th, payload, work).Ok? ==> Logged(th, payload, RunPayload(Recorder(), th, payload, work).value)
    decreases |payload|
  {
    if payload != [] {
      var n := |payload| - 1;
      var init, last := payload[..n], payload[n];
      assert payload == init + [last];
      RecorderLog(th, init, work);
      RunPayloadSnoc(Recorder(), th, init, last, work);
      var before := RunPayload(Recorder(), th, init, work);
      assert forall j :: 0 <= j < n ==> init[j] == payload[j];
      if before.Ok? {
        RecorderApply(th, last, before.value);
      }
    }
  }

  predicate Logged(th: Threads, payload: seq<Canonical>, work: Columns<Entry>) {
    && T in work
    && |work[T]| == |payload|
    && forall j :: 0 <= j < |payload| ==> Ok(work[T][j].seen) == Seen(th, payload[j])
  }

  // The exact condition: a prefix that ran is reusable for every set of step functions iff the two lists
  // thread the same parameters into it, and one recording run decides which.
  lemma {:induction false} ReuseIsExact(first: seq<Step>, kA: nat, second: seq<Step>, kB: nat, seeds: Columns<Entry>)
    requires kA <= |first| && kB <= |second| && Payload(first, kA) == Payload(second, kB)
    requires T in seeds && seeds[T] == []
    requires RunRange(Recorder(), first, 0, kA, seeds).Ok?
    ensures SameThreading(ThreadsOf(first), ThreadsOf(second), Payload(first, kA))
       <==> RunRange(Recorder(), first, 0, kA, seeds) == RunRange(Recorder(), second, 0, kB, seeds)
  {
    var payload := Payload(first, kA);
    var a, b := ThreadsOf(first), ThreadsOf(second);
    PrefixRunsPayload(Recorder(), first, kA, seeds);
    PrefixRunsPayload(Recorder(), second, kB, seeds);
    RecorderReadsOnlyDeclared();
    RecorderLog(a, payload, seeds);
    RecorderLog(b, payload, seeds);
    if SameThreading(a, b, payload) {
      SameThreadingSameWork(Recorder(), a, b, payload, seeds);
    }
  }

  // ---- a condition on the lists alone ----

  predicate NumericRate(steps: seq<Step>) {
    var p := FirstParams(steps, AngularResample);
    p.Some? && SamplesPerRev in p.value ==> IntOf(p.value[SamplesPerRev]).Ok?
  }

  // The threading steps are switched on, so the payload of any prefix that uses them contains them.
  predicate Steady(steps: seq<Step>) {
    && FirstIsOn(steps, AngularResample)
    && FirstIsOn(steps, FrameTransform)
    && NumericRate(steps)
  }

  // In an accepted recipe an enabled consumer of an angular or frame column has its producer enabled before it.
  lemma {:induction false} ProducerBefore(steps: seq<Step>, i: nat, c: Col) returns (j: nat)
    requires Accepts(steps) && i < |steps| && steps[i].on
    requires c in Needs(steps[i].op) && c !in SEED_COLUMNS
    ensures j < i && steps[j].on && c in Produces(steps[j].op)
  {
    assert StepOk(steps, i);
    j := ProducerOf(steps[..i], c);
  }

  lemma {:induction false} ThreadInPrefix(steps: seq<Step>, k: nat, j: nat, op: Op)
    requires j < k <= |steps| && steps[j].op == op && FirstIsOn(steps, op)
    ensures FirstParams(EnabledSteps(steps[..k]), op) == FirstParams(steps, op)
  {
    var pre, post := steps[..k], steps[k..];
    assert steps == pre + post;
    FirstParamsFound(pre, op, j);
    FirstParamsAppend(pre, post, op);
    FirstEnabled(pre, op);
  }

  lemma {:induction false} EnabledIndex(steps: seq<Step>, k: nat, j: nat) returns (i: nat)
    requires k <= |steps| && j < |EnabledSteps(steps[..k])|
    ensures i < k && steps[i].on && EnabledSteps(steps[..k])[j] == steps[i]
  {
    var pre := steps[..k];
    assert pre[..k - 1] == steps[..k - 1];
    if pre[k - 1].on && j == |EnabledSteps(pre)| - 1 {
      i := k - 1;
    } else {
      i := EnabledIndex(steps, k - 1, j);
    }
  }

  // An enabled step that reads the rate has an enabled angular_resample before it, or is one.
  lemma {:induction false} RateThreadInPrefix(steps: seq<Step>, k: nat, i: nat)
    requires Accepts(steps) && FirstIsOn(steps, AngularResample) && i < k <= |steps|
    requires steps[i].on && SamplesPerRev in Reads(steps[i].op)
    ensures FirstParams(EnabledSteps(steps[..k]), AngularResample) == FirstParams(steps, AngularResample)
  {
    var r := i;
    if steps[i].op == Tsa {
      r := ProducerBefore(steps, i, Sig);
    } else if steps[i].op == Envelope {
      var t := ProducerBefore(steps, i, TsaResid);
      r := ProducerBefore(steps, t, Sig);
    }
    ThreadInPrefix(steps, k, r, AngularResample);
  }

  // Likewise for the channel and frame_transform.
  lemma {:induction false} ChannelThreadInPrefix(steps: seq<Step>, k: nat, i: nat)
    requires Accepts(steps) && FirstIsOn(steps, FrameTransform) && i < k <= |steps|
    requires steps[i].on && Channel in Reads(steps[i].op)
    ensures FirstParams(EnabledSteps(steps[..k]), FrameTransform) == FirstParams(steps, FrameTransform)
  {
    var f := ProducerBefore(steps, i, Fc);
    ThreadInPrefix(steps, k, f, FrameTransform);
  }

  lemma {:induction false} ThreadsSeenInPrefix(steps: seq<Step>, k: nat, j: nat)
    requires Accepts(steps) && Steady(steps) && k <= |steps| && j < |EnabledSteps(steps[..k])|
    ensures SamplesPerRev in Reads(EnabledSteps(steps[..k])[j].op) ==>
      FirstParams(EnabledSteps(steps[..k]), AngularResample) == FirstParams(steps, AngularResample)
    ensures Channel in Reads(EnabledSteps(steps[..k])[j].op) ==>
      FirstParams(EnabledSteps(steps[..k]), FrameTransform) == FirstParams(steps, FrameTransform)
  {
    var i := EnabledIndex(steps, k, j);
    if SamplesPerRev in Reads(steps[i].op) {
      RateThreadInPrefix(steps, k, i);
    }
    if Channel in Reads(steps[i].op) {
      ChannelThreadInPrefix(steps, k, i);
    }
  }

  lemma SeenDependsOnThreadsRead(a: Threads, b: Threads, c: Canonical)
    requires SamplesPerRev in Reads(c.op) ==> a.resample == b.resample
    requires Channel in Reads(c.op) ==> a.frame == b.frame
    requires Effective(a, c.params).Ok? && Effective(b, c.params).Ok?
    ensures Seen(a, c) == Seen(b, c)
  {
    var p, q := Effective(a, c.params).value, Effective(b, c.params).value;
    assert forall k :: k in Reads(c.op) ==> (k in p <==> k in q) && (k in p ==> p[k] == q[k]);
    assert Restrict(p, c.op) == Restrict(q, c.op);
  }

  lemma {:induction false} SteadyThreadsAgree(first: seq<Step>, kA: nat, second: seq<Step>, kB: nat)
    requires Accepts(first) && Accepts(second) && Steady(first) && Steady(second)
    requires kA <= |first| && kB <= |second| && Payload(first, kA) == Payload(second, kB)
    ensures SameThreading(ThreadsOf(first), ThreadsOf(second), Payload(first, kA))
  {
    var payload := Payload(first, kA);
    var inA, inB := EnabledSteps(first[..kA]), EnabledSteps(second[..kB]);
    FirstParamsByPayload(inA, inB, AngularResample);
    FirstParamsByPayload(inA, inB, FrameTransform);
    forall j | 0 <= j < |payload|
      ensures Seen(ThreadsOf(first), payload[j]) == Seen(ThreadsOf(second), payload[j])
    {
      assert payload[j] == CanonicalOf(inA[j]) == CanonicalOf(inB[j]);
      ThreadsSeenInPrefix(first, kA, j);
      ThreadsSeenInPrefix(second, kB, j);
      SeenDependsOnThreadsRead(ThreadsOf(first), ThreadsOf(second), payload[j]);
    }
  }

  lemma RegisteredReadsOnlyDeclared(lib: Library, layers: LayerSet)
    ensures ReadsOnlyDeclared(Registered(lib, layers))
  {
    var env := Registered(lib, layers);
    forall op, p: Params, q: Params, cols, ins | Restrict(p, op) == Restrict(q, op)
      ensures env.step(op, p, cols, ins) == env.step(op, q, cols, ins)
    {
      calc {
        env.step(op, p, cols, ins);
        OpStep(lib, op, p, cols, ins);
        OpBody(lib, op, Restrict(p, op), cols, ins);
        OpBody(lib, op, Restrict(q, op), cols, ins);
        OpStep(lib, op, q, cols, ins);
        env.step(op, q, cols, ins);
      }
    }
  }

  /**
   The cache is sound for the registered steps: equal payloads, accepted recipes whose threading steps
   are switched on, same seed columns and layers.
   */
  lemma CachedPrefixIsSound(lib: Library, layers: LayerSet, first: seq<Step>, kA: nat, second: seq<Step>, kB: nat,
                            seeds: Columns<real>, stop: Option<nat>, emit: Option<seq<Col>>)
    requires Accepts(first) && Accepts(second) && Steady(first) && Steady(second)
    requires kA <= |first| && kB <= |second| && Payload(first, kA) == Payload(second, kB)
    requires RunRange(Registered(lib, layers), first, 0, kA, seeds).Ok?
    requires stop.Some? ==> kB <= stop.value + 1
    ensures RunSpec(Registered(lib, layers), second, RunRange(Registered(lib, layers), first, 0, kA, seeds).value, Some(kB), stop, emit)
         == RunSpec(Registered(lib, layers), second, seeds, None, stop, emit)
  {
    RegisteredReadsOnlyDeclared(lib, layers);
    SteadyThreadsAgree(first, kA, second, kB);
    ReuseIsSound(Registered(lib, layers), first, kA, second, kB, seeds, stop, emit);
  }

  // The default recipe is such a list.
  lemma DefaultIsSteady()
    ensures Accepts(DefaultRecipe()) && Steady(DefaultRecipe())
  {
    DefaultIsAccepted();
    var d := DefaultRecipe();
    assert d[1..][0] == d[1];
  }

  // The digests of payloads tell payloads apart.
  ghost predicate CollisionFree(digest: seq<Canonical> -> string) {
    forall a, b :: digest(a) == digest(b) ==> a == b
  }

  lemma EqualHashesEqualPayloads(digest: seq<Canonical> -> string, first: seq<Step>, kA: nat, second: seq<Step>, kB: nat)
    requires 0 < kA <= |first| && 0 < kB <= |second|
    requires CollisionFree(digest) && PrefixHash(digest, first, Some(kA - 1)) == PrefixHash(digest, second, Some(kB - 1))
    ensures Payload(first, kA) == Payload(second, kB)
  {
  }

  // In terms of the hashes the cache is keyed by, which take the index of the last step kept.
  lemma EqualHashesMayReuse(digest: seq<Canonical> -> string, lib: Library, layers: LayerSet, first: seq<Step>, kA: nat,
                            second: seq<Step>, kB: nat, seeds: Columns<real>, stop: Option<nat>, emit: Option<seq<Col>>)
    requires 0 < kA <= |first| && 0 < kB <= |second|
    requires CollisionFree(digest) && PrefixHash(digest, first, Some(kA - 1)) == PrefixHash(digest, second, Some(kB - 1))
    requires Accepts(first) && Accepts(second) && Steady(first) && Steady(second)
    requires RunRange(Registered(lib, layers), first, 0, kA, seeds).Ok?
    requires stop.Some? ==> kB <= stop.value + 1
    ensures RunSpec(Registered(lib, layers), second, RunRange(Registered(lib, layers), first, 0, kA, seeds).value, Some(kB), stop, emit)
         == RunSpec(Registered(lib, layers), second, seeds, None, stop, emit)
  {
    EqualHashesEqualPayloads(digest, first, kA, second, kB);
    CachedPrefixIsSound(lib, layers, first, kA, second, kB, seeds, stop, emit);
  }

  // ---- a switched-off angular_resample breaks it ----

  const SWITCHED_OFF := Step(Some("z"), AngularResample, false, map[SamplesPerRev := PInt(1)], map[])

  function Plain(): seq<Step> {
    [FRAME, RESAMPLE]
  }

  function WithSwitchedOff(): seq<Step> {
    [FRAME, SWITCHED_OFF, RESAMPLE]
  }

  lemma PlainAccepted()
    ensures Accepts(Plain()) && EnabledSteps(Plain()) == [FRAME, RESAMPLE]
  {
    var p := Plain();
    HaveNothing(p);
    HaveStep(p, 0);
    assert StepOk(p, 0) && StepOk(p, 1);
    assert p[..1] == [FRAME] && [FRAME][..0] == [] && EnabledSteps([FRAME]) == [FRAME];
  }

  lemma SwitchedOffAccepted()
    ensures Accepts(WithSwitchedOff())
  {
    var w := WithSwitchedOff();
    HaveNothing(w);
    HaveStep(w, 0);
    HaveStep(w, 1);
    assert StepOk(w, 0) && StepOk(w, 1) && StepOk(w, 2);
  }

  lemma SwitchedOffEnabled()
    ensures EnabledSteps(WithSwitchedOff()) == [FRAME, RESAMPLE]
  {
    var w := WithSwitchedOff();
    assert w[..2] == [FRAME, SWITCHED_OFF] && [FRAME, SWITCHED_OFF][..1] == [FRAME] && [FRAME][..0] == [];
    assert EnabledSteps([FRAME]) == [FRAME] == EnabledSteps([FRAME, SWITCHED_OFF]);
  }

  lemma BothAccepted()
    ensures Accepts(Plain()) && Accepts(WithSwitchedOff()) && Payload(Plain(), 2) == Payload(WithSwitchedOff(), 3)
  {
    PlainAccepted();
    SwitchedOffAccepted();
    SwitchedOffEnabled();
    assert Plain()[..2] == Plain() && WithSwitchedOff()[..3] == WithSwitchedOff();
  }

  // What the two lists thread into a step without parameters of its own.
  const PLAIN_PARAMS: Params := map[Channel := PName(Fp)]
  const OFF_PARAMS: Params := map[SamplesPerRev := PInt(1), Channel := PName(Fp)]

  lemma ThreadedParams()
    ensures Effective(ThreadsOf(Plain()), map[]) == Ok(PLAIN_PARAMS)
    ensures Effective(ThreadsOf(WithSwitchedOff()), map[]) == Ok(OFF_PARAMS)
  {
    assert Plain()[1..] == [RESAMPLE] && WithSwitchedOff()[1..] == [SWITCHED_OFF, RESAMPLE];
  }

  lemma PlainRun<V(!new)>(env: Env<V>, seeds: Columns<V>, frame: Columns<V>, own: Columns<V>)
    requires TwoCalls(env, PLAIN_PARAMS, seeds, frame, own)
    ensures RunRange(env, Plain(), 0, 2, seeds) == Ok(seeds + frame + own)
  {
    ThreadedParams();
    TwoApplications(env, ThreadsOf(Plain()), PLAIN_PARAMS, seeds, frame, own);
    assert RunRange(env, Plain(), 0, 1, seeds) == Ok(seeds + frame);
  }

  lemma SwitchedOffRun<V(!new)>(env: Env<V>, seeds: Columns<V>, frame: Columns<V>, cached: Columns<V>)
    requires TwoCalls(env, OFF_PARAMS, seeds, frame, cached)
    ensures RunRange(env, WithSwitchedOff(), 0, 3, seeds) == Ok(seeds + frame + cached)
  {
    ThreadedParams();
    TwoApplications(env, ThreadsOf(WithSwitchedOff()), OFF_PARAMS, seeds, frame, cached);
    assert RunRange(env, WithSwitchedOff(), 0, 1, seeds) == Ok(seeds + frame);
    assert RunRange(env, WithSwitchedOff(), 0, 2, seeds) == Ok(seeds + frame);
  }

  /**
   Equal prefix hashes, different work: whenever angular_resample's signal depends on the rate it is
   given, resuming Plain from the prefix WithSwitchedOff left is not Plain's own run.
   */
  lemma DifferentSignalBreaksReuse<V(!new)>(env: Env<V>, seeds: Columns<V>, frame: Columns<V>, own: Columns<V>,
                                                       frame': Columns<V>, cached: Columns<V>)
    requires TwoCalls(env, PLAIN_PARAMS, seeds, frame, own) && TwoCalls(env, OFF_PARAMS, seeds, frame', cached)
    requires Sig in own && Sig in cached && own[Sig] != cached[Sig]
    ensures Accepts(Plain()) && Accepts(WithSwitchedOff()) && Payload(Plain(), 2) == Payload(WithSwitchedOff(), 3)
    ensures var kept := RunRange(env, WithSwitchedOff(), 0, 3, seeds);
      && kept.Ok?
      && RunSpec(env, Plain(), kept.value, Some(2), None, Some([Sig])) != RunSpec(env, Plain(), seeds, None, None, Some([Sig]))
  {
    PlainRun(env, seeds, frame, own);
    SwitchedOffRun(env, seeds, frame', cached);
    BothAccepted();
    EmitOne(seeds + frame + own, Sig);
    EmitOne(seeds + frame' + cached, Sig);
    ResumedAtEnd(env, seeds, seeds + frame' + cached);
  }

  lemma ThreadedRates()
    ensures Rate(PLAIN_PARAMS) == Ok(256) && ChannelOf(PLAIN_PARAMS) == Ok(Fp) && PLAIN_PARAMS.Keys <= {SamplesPerRev, Channel}
    ensures Rate(OFF_PARAMS) == Ok(1) && ChannelOf(OFF_PARAMS) == Ok(Fp) && OFF_PARAMS.Keys <= {SamplesPerRev, Channel}
  {
  }

  // The registered steps on one recorded revolution: 256 samples against one.
  lemma SwitchedOffStepBreaksReuse(lib: Library, seeds: Columns<real>)
    requires NeverRaises(lib) && OneRevolution(seeds)
    ensures Accepts(Plain()) && Accepts(WithSwitchedOff()) && Payload(Plain(), 2) == Payload(WithSwitchedOff(), 3)
    ensures var env := Registered(lib, map[]);
      var kept := RunRange(env, WithSwitchedOff(), 0, 3, seeds);
      && kept.Ok?
      && RunSpec(env, Plain(), kept.value, Some(2), None, Some([Sig])) != RunSpec(env, Plain(), seeds, None, None, Some([Sig]))
  {
    ThreadedRates();
    var frame, own := RegisteredCalls(lib, PLAIN_PARAMS, 256, seeds);
    var frame', cached := RegisteredCalls(lib, OFF_PARAMS, 1, seeds);
    assert |own[Sig]| != |cached[Sig]|;
    DifferentSignalBreaksReuse(Registered(lib, map[]), seeds, frame, own, frame', cached);
  }

  lemma ResumedAtEnd<V>(env: Env<V>, seeds: Columns<V>, kept: Columns<V>)
    requires Accepts(Plain())
    ensures RunSpec(env, Plain(), kept, Some(2), None, Some([Sig])) == Emit(kept, [Sig])
    ensures RunRange(env, Plain(), 0, 2, seeds).Ok? ==>
      RunSpec(env, Plain(), seeds, None, None, Some([Sig])) == Emit(RunRange(env, Plain(), 0, 2, seeds).value, [Sig])
  {
  }

  lemma EmitOne<V>(work: Columns<V>, c: Col)
    requires c in work
    ensures Emit(work, [c]) == Ok(map[c := work[c]])
  {
    assert [c][..0] == [];
    assert Emit(work, [c][..0]) == Ok(map[]);
  }
}
