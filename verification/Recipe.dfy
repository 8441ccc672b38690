/** scripts/diag/recipe.py: recipes and the identity of a prefix. */
module Recipe {
  // A recipe is an ordered list of typed steps. JSON keys and column names are enumerated instead of
  // spelled as strings.

  import opened Wrappers

  datatype Op =
    | FrameTransform | AngularResample | Tsa | RadialDetrend | GetisOrd | Hdbscan | Envelope
    | GrowSegmentation | Invert | Griddify | GmmSegmentation
    | Unregistered(name: string)

  datatype Col =
    | TRaw | Fx | Fy | Fz | Rpm | Revs | XRaw | YRaw          // seeded
    | Fc | Ff | Fp                                            // frame_transform
    | T | Rev | X | Y | Sig                                   // angular_resample
    | TsaResid | ResidZ | GiStar | GiSig | ClusterId | Glosh | EnvBand
    | SegmentId | Inverted | GridFill | GridSupport | GmmId | GmmProb

  datatype Key =
    | SamplesPerRev | Channel | MountDeg | HMatrix | NBins | MinPerBin | KNeighbours | Alpha
    | GridTarget | MinClusterSize | FnHz | BandwidthFrac | Features | AttrWeight | Source | Mode
    | Epsilon | ResolutionMm | Method | MaxFillMm | NComponents | CovarianceType | RandomState
    | OtherKey(key: string)

  datatype Param =
    | PNull | PInt(i: int) | PReal(r: real) | PText(s: string) | PName(col: Col) | PList(items: seq<Param>)

  type Params = map<Key, Param>

  // {"layer": name, "required": b} or {"layers": [names], "required": b}
  datatype Binding = One(layer: string, required: bool) | Many(layers: seq<string>, required: bool)

  datatype Step = Step(id: Option<string>, op: Op, on: bool, params: Params, inputs: map<string, Binding>)

  // The identity-bearing part of a step: everything but its id and its switch.
  datatype Canonical = Canonical(op: Op, params: Params, inputs: map<string, Binding>)

  function CanonicalOf(s: Step): Canonical {
    Canonical(s.op, s.params, s.inputs)
  }

  function EnabledSteps(steps: seq<Step>): seq<Step> {
    if steps == [] then [] else
      var init := EnabledSteps(steps[..|steps| - 1]);
      var last := steps[|steps| - 1];
      if last.on then init + [last] else init
  }

  function CanonicalAll(steps: seq<Step>): (c: seq<Canonical>)
    ensures |c| == |steps|
    ensures forall i :: 0 <= i < |c| ==> c[i] == CanonicalOf(steps[i])
  {
    seq(|steps|, i requires 0 <= i < |steps| => CanonicalOf(steps[i]))
  }

  // What prefix_hash digests for the first `len` steps of the list, disabled steps included in `len`.
  function Payload(steps: seq<Step>, len: nat): seq<Canonical> {
    CanonicalAll(EnabledSteps(if len <= |steps| then steps[..len] else steps))
  }

  function PrefixHash(digest: seq<Canonical> -> string, steps: seq<Step>, upto: Option<nat>): string {
    digest(Payload(steps, if upto.Some? then upto.value + 1 else |steps|))
  }

  // The params of the first step of the list running `op`, enabled or not.
  function FirstParams(steps: seq<Step>, op: Op): Option<Params> {
    if steps == [] then None
    else if steps[0].op == op then Some(steps[0].params)
    else FirstParams(steps[1..], op)
  }

  predicate FirstIsOn(steps: seq<Step>, op: Op) {
    steps == [] || (if steps[0].op == op then steps[0].on else FirstIsOn(steps[1..], op))
  }

  lemma {:induction false} FirstParamsAppend(a: seq<Step>, b: seq<Step>, op: Op)
    ensures FirstParams(a + b, op) == if FirstParams(a, op).Some? then FirstParams(a, op) else FirstParams(b, op)
    ensures FirstParams(a, op).Some? ==> FirstIsOn(a + b, op) == FirstIsOn(a, op)
    ensures FirstParams(a, op).None? ==> FirstIsOn(a + b, op) == FirstIsOn(b, op)
  {
    if a == [] {
      assert a + b == b;
    } else {
      assert (a + b)[1..] == a[1..] + b;
      FirstParamsAppend(a[1..], b, op);
    }
  }

  lemma {:induction false} FirstParamsFound(steps: seq<Step>, op: Op, i: nat)
    requires i < |steps| && steps[i].op == op
    ensures FirstParams(steps, op).Some?
  {
    if i > 0 {
      FirstParamsFound(steps[1..], op, i - 1);
    }
  }

  // Dropping disabled steps keeps the first `op` of the list when that step is switched on.
  lemma {:induction false} FirstEnabled(steps: seq<Step>, op: Op)
    requires FirstIsOn(steps, op)
    ensures FirstParams(EnabledSteps(steps), op) == FirstParams(steps, op)
    decreases |steps|
  {
    if steps != [] {
      var init, last := steps[..|steps| - 1], steps[|steps| - 1];
      assert steps == init + [last];
      FirstParamsAppend(init, [last], op);
      if FirstParams(init, op).None? {
        NoneFirstIsOn(init, op);
      }
      FirstEnabled(init, op);
      FirstParamsAppend(EnabledSteps(init), [last], op);
      assert FirstParams([last], op) == if last.op == op then Some(last.params) else None;
    }
  }

  lemma {:induction false} NoneFirstIsOn(steps: seq<Step>, op: Op)
    requires FirstParams(steps, op).None?
    ensures FirstIsOn(steps, op)
  {
    if steps != [] {
      NoneFirstIsOn(steps[1..], op);
    }
  }

  // An enabled step of a prefix is found among the enabled steps, so the payload decides it.
  lemma {:induction false} FirstParamsByPayload(a: seq<Step>, b: seq<Step>, op: Op)
    requires CanonicalAll(a) == CanonicalAll(b)
    ensures FirstParams(a, op) == FirstParams(b, op)
    decreases |a|
  {
    assert |a| == |CanonicalAll(a)| == |b|;
    if a != [] {
      assert CanonicalAll(a)[0] == CanonicalAll(b)[0];
      assert CanonicalAll(a[1..]) == CanonicalAll(a)[1..];
      assert CanonicalAll(b[1..]) == CanonicalAll(b)[1..];
      FirstParamsByPayload(a[1..], b[1..], op);
    }
  }

  /** The default recipe, recipe.py:25-68. */
  function DefaultRecipe(): seq<Step> {
    [
      Step(Some("s1"), FrameTransform, true, map[Channel := PName(Fp), MountDeg := PReal(0.0)], map[]),
      Step(Some("s2"), AngularResample, true, map[SamplesPerRev := PInt(256)], map[]),
      Step(Some("s3"), Tsa, true, map[], map[]),
      Step(Some("s4"), RadialDetrend, true, map[NBins := PInt(200), MinPerBin := PInt(8)], map[]),
      Step(Some("s5"), GetisOrd, true, map[KNeighbours := PInt(30), Alpha := PReal(0.05)], map[]),
      Step(Some("s6"), Hdbscan, true, map[GridTarget := PInt(20000), MinClusterSize := PInt(10)], map[]),
      Step(Some("s7"), Envelope, false, map[BandwidthFrac := PReal(0.2), FnHz := PNull], map[])
    ]
  }
}
