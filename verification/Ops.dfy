/** scripts/diag/ops.py: what each registered step reads, checks and produces. */
module Ops {
  // The angular steps are computed; the values of the statistical steps come from an arbitrary `Library`,
  // one value per point, so that everything proved holds for any numerics.

  import opened Wrappers
  import opened Recipe
  import opened Registry
  import opened Runner
  import opened Numpy
  import opened Angular

  // raises: an error of the step other than a missing column. enough: whether the points that are left
  // suffice for a score, so that the step goes on to read the coordinates.
  datatype Library = Library(
    raises: (Op, Params, Columns<real>, Resolved) -> bool,
    enough: (Op, Params, Columns<real>, Resolved) -> bool,
    point: (Op, Col, Params, Columns<real>, Resolved, nat) -> real)

  // cols[c], a KeyError when there is no such column
  function Column(cols: Columns<real>, c: Col): Result<seq<real>, RunError> {
    if c in cols then Ok(cols[c]) else Err(Failed)
  }

  // The parameters an op's columns depend on.
  function Reads(op: Op): set<Key> {
    match op
    case FrameTransform => {HMatrix, MountDeg}
    case AngularResample => {SamplesPerRev, Channel}
    case Tsa => {SamplesPerRev}
    case RadialDetrend => {NBins, MinPerBin}
    case GetisOrd => {KNeighbours, Alpha}
    case Hdbscan => {GridTarget, MinClusterSize}
    case Envelope => {FnHz, Channel, SamplesPerRev, BandwidthFrac}
    case GrowSegmentation => {Features, KNeighbours, Alpha, AttrWeight}
    case Invert => {Source, Mode, Epsilon}
    case Griddify => {ResolutionMm, Method, MaxFillMm}
    case GmmSegmentation => {NComponents, CovarianceType, AttrWeight, RandomState, GridTarget}
    case Unregistered(_) => {}
  }

  function Restrict(p: Params, op: Op): Params {
    map k | k in p && k in Reads(op) :: p[k]
  }

  function FromAngular<T>(r: Result<T, AngularError>): Result<T, RunError> {
    if r.Ok? then Ok(r.value) else Err(Failed)
  }

  function Matrix3By3(p: Param): bool {
    p.PList? && |p.items| == 3 && forall i :: 0 <= i < 3 ==> p.items[i].PList? && |p.items[i].items| == 3
  }

  function Only(cols: Columns<real>): Result<Produced<real>, RunError> {
    Ok(Produced(cols, None))
  }

  // int(params.get("samples_per_rev", 256))
  function Rate(p: Params): Result<int, RunError> {
    if SamplesPerRev in p then IntOf(p[SamplesPerRev]) else Ok(256)
  }

  function ChannelOf(p: Params): Result<Col, RunError> {
    if Channel !in p then Ok(Fp) else if p[Channel].PName? then Ok(p[Channel].col) else Err(Failed)
  }

  function RealOf(p: Param): Result<real, RunError> {
    match p
    case PInt(i) => Ok(i as real)
    case PReal(r) => Ok(r)
    case _ => Err(Failed)
  }

  // A column of n library values.
  function Values(lib: Library, op: Op, c: Col, p: Params, cols: Columns<real>, ins: Resolved, n: nat): (s: seq<real>)
    ensures |s| == n
  {
    seq(n, i requires 0 <= i < n => lib.point(op, c, p, cols, ins, i))
  }

  function FrameStep(lib: Library, p: Params, cols: Columns<real>, ins: Resolved): Result<Produced<real>, RunError> {
    var fx :- Column(cols, Fx);
    var fy :- Column(cols, Fy);
    var fz :- Column(cols, Fz);
    var n := |fx|;
    if HMatrix in p && !p[HMatrix].PNull? && !Matrix3By3(p[HMatrix]) then Err(Failed)
    else if |fy| != n || |fz| != n then Err(Failed)
    else Only(map[Fc := Values(lib, FrameTransform, Fc, p, cols, ins, n),
                  Ff := Values(lib, FrameTransform, Ff, p, cols, ins, n),
                  Fp := Values(lib, FrameTransform, Fp, p, cols, ins, n)])
  }

  // Only the one channel is read.
  function AngularStep(p: Params, cols: Columns<real>): Result<Produced<real>, RunError> {
    var rate :- Rate(p);
    var channel :- ChannelOf(p);
    if channel !in {Fc, Ff, Fp} then Err(Failed)
    else
      var revs :- Column(cols, Revs);
      var force :- Column(cols, channel);
      var sig :- FromAngular(Angular.AngularResample(revs, force, rate));
      var tRaw :- Column(cols, TRaw);
      var t :- FromAngular(Angular.AngularResample(revs, tRaw, rate));
      var xRaw :- Column(cols, XRaw);
      var x :- FromAngular(Angular.AngularResample(revs, xRaw, rate));
      var yRaw :- Column(cols, YRaw);
      var y :- FromAngular(Angular.AngularResample(revs, yRaw, rate));
      Only(map[T := t.1, Rev := sig.0, X := x.1, Y := y.1, Sig := sig.1])
  }

  // int(params.get("samples_per_rev") or 0); 0 means "read it off the grid", and only then is rev read.
  function TsaRate(p: Params, cols: Columns<real>): Result<int, RunError> {
    var given :- if SamplesPerRev in p && !p[SamplesPerRev].PNull? then IntOf(p[SamplesPerRev]) else Ok(0);
    if given != 0 then Ok(given)
    else
      var rev :- Column(cols, Rev);
      if |rev| < 2 || rev[1] == rev[0] then Err(Failed)
      else Ok(Round(1.0 / (rev[1] - rev[0])))
  }

  function TsaStep(p: Params, cols: Columns<real>): Result<Produced<real>, RunError> {
    var rate :- TsaRate(p, cols);
    var sig :- Column(cols, Sig);
    var split :- FromAngular(TsaSplit(sig, rate));
    if |sig| < 2 then Err(Failed)
    else Ok(Produced(map[TsaResid := split.1], Some(|split.1|)))
  }

  // t.size / span, 0 where the times span nothing
  function SampleRate(t: seq<real>): real {
    var span := if |t| > 1 then t[|t| - 1] - t[0] else 0.0;
    if span > 0.0 then |t| as real / span else 0.0
  }

  // Of the band around f.
  function UpperEdge(f: real, frac: real): real {
    f + f * (frac / 2.0)
  }

  // The channel and the angles are read only where an envelope is computed.
  function EnvelopeStep(lib: Library, p: Params, cols: Columns<real>, ins: Resolved): Result<Produced<real>, RunError> {
    var resid :- Column(cols, TsaResid);
    var n := |resid|;
    var refused := Only(map[EnvBand := seq(n, i => 0.0)]);
    var rate :- Rate(p);
    var t :- Column(cols, TRaw);
    var fs := SampleRate(t);
    if FnHz !in p || p[FnHz].PNull? then refused
    else
      var fn :- RealOf(p[FnHz]);
      if fn <= 0.0 then refused
      else
        var frac :- if BandwidthFrac in p then RealOf(p[BandwidthFrac]) else Ok(0.2);
        if fs / 2.0 <= UpperEdge(fn, frac) then refused
        else
          var channel :- ChannelOf(p);
          var force :- Column(cols, channel);
          var env := Values(lib, Envelope, channel, p, cols, ins, |force|);
          var revs :- Column(cols, Revs);
          var resampled :- FromAngular(Angular.AngularResample(revs, env, rate));
          Only(map[EnvBand := if |resampled.1| >= n then resampled.1[..n] else resampled.1])
  }

  function OpStep(lib: Library, op: Op, params: Params, cols: Columns<real>, ins: Resolved): Result<Produced<real>, RunError> {
    OpBody(lib, op, Restrict(params, op), cols, ins)
  }

  function OpBody(lib: Library, op: Op, p: Params, cols: Columns<real>, ins: Resolved): Result<Produced<real>, RunError> {
    if lib.raises(op, p, cols, ins) then Err(Failed)
    else
      match op
      case FrameTransform => FrameStep(lib, p, cols, ins)
      case AngularResample => AngularStep(p, cols)
      case Tsa => TsaStep(p, cols)
      case Envelope => EnvelopeStep(lib, p, cols, ins)
      case Invert => InvertStep(lib, p, cols, ins)
      case Unregistered(_) => Err(Failed)
      case _ => StatisticStep(lib, op, p, cols, ins)
  }

  function InvertStep(lib: Library, p: Params, cols: Columns<real>, ins: Resolved): Result<Produced<real>, RunError> {
    var source := if Source in p then p[Source] else PName(ResidZ);
    if !source.PName? || source.col !in cols then Err(Failed)
    else Only(map[Inverted := Values(lib, Invert, Inverted, p, cols, ins, |cols[source.col]|)])
  }

  predicate IsStatistic(op: Op) {
    op.RadialDetrend? || op.GetisOrd? || op.Hdbscan? || op.GrowSegmentation? || op.Griddify? || op.GmmSegmentation?
  }

  // The columns a statistic reads: resid_z is optional to grow_segmentation, and the scores on it read the
  // coordinates only once there are enough points.
  function Read(lib: Library, op: Op, p: Params, cols: Columns<real>, ins: Resolved): set<Col>
    requires IsStatistic(op)
  {
    match op
    case RadialDetrend => {X, Y, TsaResid}
    case GrowSegmentation => {X, Y}
    case Griddify => {X, Y, ResidZ}
    case _ => if lib.enough(op, p, cols, ins) then {ResidZ, X, Y} else {ResidZ}
  }

  // One value per angular point: at the size of x for the fits, at the size of resid_z for the scores on it.
  function StatisticStep(lib: Library, op: Op, p: Params, cols: Columns<real>, ins: Resolved): Result<Produced<real>, RunError>
    requires IsStatistic(op)
  {
    if !(Read(lib, op, p, cols, ins) <= cols.Keys) then Err(Failed)
    else
      var sized := if op.RadialDetrend? || op.GrowSegmentation? then cols[X] else cols[ResidZ];
      if op.RadialDetrend? && (|cols[X]| != |cols[Y]| || |cols[X]| != |cols[TsaResid]|) then Err(Failed)
      else Only(map c | c in Produces(op) :: Values(lib, op, c, p, cols, ins, |sized|))
  }

  // The registered steps over the layers of one cut.
  function Registered(lib: Library, layers: LayerSet): Env<real> {
    Env(
      (op, p, cols, ins) => OpStep(lib, op, p, cols, ins),
      (op, inputs, x, y) => ResolveInputs(layers, op, inputs, x, y),
      c => if c == SegmentId || c == GmmId then -1.0 else 0.0)
  }

  // A step that succeeds returns exactly the declared columns, cutting only after tsa.
  lemma StepKeepsContract(lib: Library, op: Op, params: Params, cols: Columns<real>, ins: Resolved)
    requires OpStep(lib, op, params, cols, ins).Ok?
    ensures OpStep(lib, op, params, cols, ins).value.cols.Keys == Produces(op)
    ensures OpStep(lib, op, params, cols, ins).value.cut.Some? <==> op == Tsa
  {
  }

  // The columns without which a step cannot return, whatever its parameters.
  function Demands(op: Op): set<Col> {
    match op
    case FrameTransform => {Fx, Fy, Fz}
    case AngularResample => {Revs, TRaw, XRaw, YRaw}
    case Tsa => {Sig}
    case RadialDetrend => {TsaResid, X, Y}
    case Envelope => {TRaw, TsaResid}
    case GrowSegmentation => {X, Y}
    case Griddify => {X, Y, ResidZ}
    case Invert => {}
    case Unregistered(_) => {}
    case _ => {ResidZ}
  }

  lemma StepHasDemands(lib: Library, op: Op, params: Params, cols: Columns<real>, ins: Resolved)
    requires OpStep(lib, op, params, cols, ins).Ok?
    ensures Demands(op) <= cols.Keys
    ensures op == AngularResample ==> Fc in cols || Ff in cols || Fp in cols
  {
  }
}
