/** Column lengths through a recipe with one angular grid. */
module RecipeLengths {
  // What every step does to them before the grid is there, on the grid and after the
  // averaging, and why the public columns come out at one length, a whole number of revolutions.

  import opened Wrappers
  import opened Arith
  import opened Numpy
  import opened Recipe
  import opened Registry
  import opened Runner
  import opened Ops
  import opened CheckerSoundness
  import Angular

  // What a column is sampled on.
  datatype Kind = FullRate | Grid | Signal | Residual | Inversion | Score

  function KindOf(c: Col): Kind {
    match c
    case T => Grid
    case Rev => Grid
    case X => Grid
    case Y => Grid
    case Sig => Signal
    case TsaResid => Residual
    case Inverted => Inversion
    case ResidZ => Score
    case GiStar => Score
    case GiSig => Score
    case ClusterId => Score
    case Glosh => Score
    case EnvBand => Score
    case SegmentId => Score
    case GridFill => Score
    case GridSupport => Score
    case GmmId => Score
    case GmmProb => Score
    case _ => FullRate
  }

  lemma KindsOfSets(c: Col)
    ensures c in TRUNCATABLE <==> KindOf(c) != FullRate && KindOf(c) != Signal
    ensures c in SEED_COLUMNS ==> KindOf(c) == FullRate
  {
  }

  predicate OnlyOne(steps: seq<Step>, op: Op) {
    forall i, j :: 0 <= i < |steps| && 0 <= j < |steps| && steps[i].op == op && steps[j].op == op ==> i == j
  }

  predicate OneGrid(steps: seq<Step>) {
    && OnlyOne(steps, AngularResample)
    && OnlyOne(steps, Tsa)
    && forall i :: 0 <= i < |steps| ==> SamplesPerRev in steps[i].params ==> steps[i].op == AngularResample
  }

  // The rate of the one grid: what angular_resample is given, or its default.
  function GridRate(th: Threads): int {
    if th.resample.Some? && SamplesPerRev in th.resample.value && IntOf(th.resample.value[SamplesPerRev]).Ok?
    then IntOf(th.resample.value[SamplesPerRev]).value else 256
  }

  predicate BeforeGrid(work: Columns<real>) {
    forall c :: c in work ==> KindOf(c) == FullRate || c == Inverted
  }

  predicate OnGrid(work: Columns<real>, revs: seq<real>, rate: int) {
    && rate >= 1 && |revs| >= 2 && Angular.GridSize(revs, rate) >= 1
    && T in work && Rev in work && X in work && Y in work && Sig in work
    && (forall c :: c in work ==> KindOf(c) != Residual && KindOf(c) != Score)
    && (forall c :: c in work && (KindOf(c) == Grid || KindOf(c) == Signal) ==> |work[c]| == Angular.GridSize(revs, rate))
    && work[Rev] == Angular.Grid(revs[0], rate, Angular.GridSize(revs, rate))
  }

  // The whole revolutions of the grid, in samples.
  function WholeLength(revs: seq<real>, rate: int): int {
    if rate >= 1 && |revs| >= 2 && Angular.GridSize(revs, rate) >= 1
    then Angular.WholeRevolutions(Angular.GridSize(revs, rate), rate) * rate else 0
  }

  predicate Averaged(work: Columns<real>, revs: seq<real>, rate: int) {
    && rate >= 1 && |revs| >= 2 && Angular.GridSize(revs, rate) >= 1
    && T in work && Rev in work && X in work && Y in work && Sig in work && TsaResid in work
    && rate <= |work[TsaResid]| <= Angular.GridSize(revs, rate) == |work[Sig]|
    && |work[TsaResid]| == WholeLength(revs, rate) && |work[TsaResid]| % rate == 0
    && forall c :: c in work && (KindOf(c) == Grid || KindOf(c) == Score) ==> |work[c]| == |work[TsaResid]|
  }

  predicate Stage(work: Columns<real>, revs: seq<real>, rate: int) {
    && Revs in work && work[Revs] == revs
    && (if TsaResid in work then Averaged(work, revs, rate) else if T in work then OnGrid(work, revs, rate) else BeforeGrid(work))
  }

  // What one step of a one-grid recipe may be handed.
  predicate FitsGrid(th: Threads, c: Canonical, work: Columns<real>) {
    && (c.op == AngularResample ==> T !in work && th.resample == Some(c.params))
    && (c.op == Tsa ==> TsaResid !in work)
    && (SamplesPerRev in c.params ==> c.op == AngularResample)
    && th.resample.Some?
    && Needs(c.op) <= work.Keys
  }

  // The rate every step of the grid sees.
  lemma SeenRate(th: Threads, c: Canonical, work: Columns<real>, p: Params)
    requires FitsGrid(th, c, work) && Effective(th, c.params) == Ok(p) && SamplesPerRev in Reads(c.op)
    ensures Rate(Restrict(p, c.op)).Ok? ==> Rate(Restrict(p, c.op)).value == GridRate(th)
    ensures c.op != AngularResample && SamplesPerRev in p ==> p[SamplesPerRev] == PInt(GridRate(th))
    ensures c.op != AngularResample && SamplesPerRev !in p ==> GridRate(th) == 256
  {
  }

  // A successful application, taken apart.
  lemma Applied(lib: Library, layers: LayerSet, th: Threads, c: Canonical, work: Columns<real>)
    returns (p: Params, ins: Resolved, out: Produced<real>)
    requires Needs(c.op) <= work.Keys && Apply(Registered(lib, layers), th, c, work).Ok?
    ensures Effective(th, c.params) == Ok(p)
    ensures Ran(lib, c, p, work, ins, out)
    ensures Apply(Registered(lib, layers), th, c, work).value == Merge(work, out)
  {
    p := Effective(th, c.params).value;
    ins := ResolveInputs(layers, c.op, c.inputs, Lookup(work, X), Lookup(work, Y)).value;
    out := OpStep(lib, c.op, p, work, ins).value;
    StepKeepsContract(lib, c.op, p, work, ins);
    OpBodyByKind(lib, c.op, Restrict(p, c.op), work, ins);
  }

  lemma OpBodyByKind(lib: Library, op: Op, p: Params, work: Columns<real>, ins: Resolved)
    requires OpBody(lib, op, p, work, ins).Ok?
    ensures !op.Unregistered?
    ensures op == FrameTransform ==> FrameStep(lib, p, work, ins) == OpBody(lib, op, p, work, ins)
    ensures op == AngularResample ==> AngularStep(p, work) == OpBody(lib, op, p, work, ins)
    ensures op == Tsa ==> TsaStep(p, work) == OpBody(lib, op, p, work, ins)
    ensures op == Envelope ==> EnvelopeStep(lib, p, work, ins) == OpBody(lib, op, p, work, ins)
    ensures op == Invert ==> InvertStep(lib, p, work, ins) == OpBody(lib, op, p, work, ins)
    ensures IsStatistic(op) ==> StatisticStep(lib, op, p, work, ins) == OpBody(lib, op, p, work, ins)
  {
  }

  lemma AngularLengths(p: Params, cols: Columns<real>)
    requires AngularStep(p, cols).Ok?
    ensures Rate(p).Ok? && Rate(p).value >= 1 && Revs in cols && |cols[Revs]| >= 2
    ensures var n := Angular.GridSize(cols[Revs], Rate(p).value);
      var out := AngularStep(p, cols).value.cols;
      && n >= 1 && out.Keys == Produces(AngularResample)
      && (forall c :: c in out ==> |out[c]| == n)
      && out[Rev] == Angular.Grid(cols[Revs][0], Rate(p).value, n)
  {
  }

  lemma GridArrives(work: Columns<real>, out: Columns<real>, revs: seq<real>, rate: int)
    requires BeforeGrid(work) && out.Keys == Produces(AngularResample)
    requires rate >= 1 && |revs| >= 2 && Angular.GridSize(revs, rate) >= 1
    requires forall c :: c in out ==> |out[c]| == Angular.GridSize(revs, rate)
    requires out[Rev] == Angular.Grid(revs[0], rate, Angular.GridSize(revs, rate))
    ensures OnGrid(work + out, revs, rate)
  {
    forall c | c in work + out
      ensures KindOf(c) != Residual && KindOf(c) != Score
      ensures KindOf(c) != FullRate && c != Inverted ==> c in out
    {
      assert c in out || c in work;
    }
  }

  lemma {:induction false} ResampleStage(th: Threads, c: Canonical, work: Columns<real>, p: Params, out: Produced<real>, revs: seq<real>)
    requires c.op == AngularResample && FitsGrid(th, c, work) && Effective(th, c.params) == Ok(p)
    requires Stage(work, revs, GridRate(th)) && Needs(AngularResample) <= work.Keys
    requires AngularStep(Restrict(p, AngularResample), work) == Ok(out) && out.cut.None?
    ensures Stage(Merge(work, out), revs, GridRate(th))
  {
    SeenRate(th, c, work, p);
    AngularLengths(Restrict(p, AngularResample), work);
    GridJoins(work, out.cols, revs, GridRate(th));
  }

  lemma GridJoins(work: Columns<real>, out: Columns<real>, revs: seq<real>, rate: int)
    requires Stage(work, revs, rate) && T !in work && out.Keys == Produces(AngularResample)
    requires rate >= 1 && |revs| >= 2 && Angular.GridSize(revs, rate) >= 1
    requires forall c :: c in out ==> |out[c]| == Angular.GridSize(revs, rate)
    requires out[Rev] == Angular.Grid(revs[0], rate, Angular.GridSize(revs, rate))
    ensures Stage(work + out, revs, rate)
  {
    GridArrives(work, out, revs, rate);
    assert TsaResid !in work + out;
  }

  lemma GridSpacing(r0: real, rate: int, n: nat)
    requires rate >= 1 && n >= 2
    ensures var g := Angular.Grid(r0, rate, n); g[1] != g[0] && Round(1.0 / (g[1] - g[0])) == rate
  {
    var d := 1.0 / rate as real;
    DivTimes(1.0, rate as real);
    DivTimes(1.0, d);
    var g := Angular.Grid(r0, rate, n);
    assert g[1] - g[0] == d;
    assert 1.0 / d == rate as real by {
      assert (1.0 / d) * d == 1.0 == rate as real * d;
      MulOrder(1.0 / d, rate as real, d);
    }
    RoundInteger(rate);
  }

  // tsa recovers the grid's own rate, whether it is told it or reads it off the spacing.
  lemma {:induction false} TsaSeesRate(th: Threads, c: Canonical, work: Columns<real>, p: Params, revs: seq<real>)
    requires c.op == Tsa && FitsGrid(th, c, work) && Effective(th, c.params) == Ok(p)
    requires OnGrid(work, revs, GridRate(th)) && TsaRate(Restrict(p, Tsa), work).Ok?
    ensures TsaRate(Restrict(p, Tsa), work).value == GridRate(th)
  {
    SeenRate(th, c, work, p);
    if SamplesPerRev !in p {
      assert |work[Rev]| >= 2;
      GridSpacing(revs[0], GridRate(th), |work[Rev]|);
    }
  }

  lemma TsaLengths(p: Params, cols: Columns<real>, rate: int)
    requires TsaStep(p, cols).Ok? && TsaRate(p, cols) == Ok(rate)
    ensures Sig in cols
    ensures var out := TsaStep(p, cols).value;
      && out.cols.Keys == {TsaResid} && out.cut == Some(|out.cols[TsaResid]|)
      && 1 <= rate <= |out.cols[TsaResid]| <= |cols[Sig]|
      && |out.cols[TsaResid]| == Angular.WholeRevolutions(|cols[Sig]|, rate) * rate
      && |out.cols[TsaResid]| % rate == 0
  {
    var whole := Angular.WholeRevolutions(|cols[Sig]|, rate);
    var split := Angular.TsaSplit(cols[Sig], rate).value;
    assert |split.1| == whole * rate && 1 <= rate <= |split.1| <= |cols[Sig]|;
    DivModUnique(whole * rate, rate, whole, 0);
  }

  // A residual of the grid's whole revolutions.
  predicate WholeResidual(work: Columns<real>, resid: Columns<real>, revs: seq<real>, rate: int) {
    && resid.Keys == {TsaResid} && Sig in work && rate >= 1
    && rate <= |resid[TsaResid]| <= |work[Sig]| && |resid[TsaResid]| % rate == 0
    && |resid[TsaResid]| == WholeLength(revs, rate)
  }

  // Cutting the grid to whole revolutions brings every angular column to the residual's length.
  lemma CutToResidual(work: Columns<real>, resid: Columns<real>, revs: seq<real>, rate: int)
    requires OnGrid(work, revs, rate) && WholeResidual(work, resid, revs, rate)
    ensures Averaged(Truncate(work + resid, |resid[TsaResid]|), revs, rate)
  {
    var n := |resid[TsaResid]|;
    var cut := Truncate(work + resid, n);
    forall c | c in cut && (KindOf(c) == Grid || KindOf(c) == Score || c == TsaResid)
      ensures |cut[c]| == n
    {
      CutFits(work, resid, revs, rate, c);
    }
    CutLength(work + resid, n, Sig);
    CutIsAveraged(cut, n, revs, rate);
  }

  lemma CutIsAveraged(cut: Columns<real>, n: nat, revs: seq<real>, rate: int)
    requires {T, Rev, X, Y, Sig, TsaResid} <= cut.Keys && |revs| >= 2 && 1 <= rate <= n && n % rate == 0
    requires n <= |cut[Sig]| == Angular.GridSize(revs, rate) && n == WholeLength(revs, rate)
    requires forall c :: c in cut && (KindOf(c) == Grid || KindOf(c) == Score || c == TsaResid) ==> |cut[c]| == n
    ensures Averaged(cut, revs, rate)
  {
  }

  lemma CutFits(work: Columns<real>, resid: Columns<real>, revs: seq<real>, rate: int, c: Col)
    requires OnGrid(work, revs, rate) && resid.Keys == {TsaResid} && |resid[TsaResid]| <= |work[Sig]|
    requires c in work + resid && (KindOf(c) == Grid || KindOf(c) == Score || c == TsaResid)
    ensures |Truncate(work + resid, |resid[TsaResid]|)[c]| == |resid[TsaResid]|
  {
    CutLength(work + resid, |resid[TsaResid]|, c);
  }

  lemma CutLength(cols: Columns<real>, n: nat, c: Col)
    requires c in cols
    ensures KindOf(c) == FullRate || KindOf(c) == Signal ==> Truncate(cols, n)[c] == cols[c]
    ensures KindOf(c) != FullRate && KindOf(c) != Signal ==> |Truncate(cols, n)[c]| == if |cols[c]| >= n then n else |cols[c]|
  {
    KindsOfSets(c);
  }

  lemma {:induction false} TsaStage(th: Threads, c: Canonical, work: Columns<real>, p: Params, out: Produced<real>, revs: seq<real>)
    requires c.op == Tsa && FitsGrid(th, c, work) && Effective(th, c.params) == Ok(p)
    requires Stage(work, revs, GridRate(th)) && Needs(Tsa) <= work.Keys
    requires TsaStep(Restrict(p, Tsa), work) == Ok(out)
    ensures Stage(Merge(work, out), revs, GridRate(th))
  {
    assert T in work by {
      assert Sig in work && KindOf(Sig) == Signal;
    }
    TsaSeesRate(th, c, work, p, revs);
    TsaLengths(Restrict(p, Tsa), work, GridRate(th));
    SignalIsGrid(work, revs, GridRate(th));
    ResidualJoins(work, out.cols, revs, GridRate(th));
  }

  lemma SignalIsGrid(work: Columns<real>, revs: seq<real>, rate: int)
    requires OnGrid(work, revs, rate)
    ensures |work[Sig]| == Angular.GridSize(revs, rate)
    ensures WholeLength(revs, rate) == Angular.WholeRevolutions(|work[Sig]|, rate) * rate
  {
    assert KindOf(Sig) == Signal;
  }

  lemma ResidualJoins(work: Columns<real>, resid: Columns<real>, revs: seq<real>, rate: int)
    requires Stage(work, revs, rate) && T in work && TsaResid !in work && WholeResidual(work, resid, revs, rate)
    ensures Stage(Truncate(work + resid, |resid[TsaResid]|), revs, rate)
  {
    CutToResidual(work, resid, revs, rate);
    KindsOfSets(Revs);
  }

  // Columns of the angular length leave the stage as it is.
  lemma AveragedGrows(work: Columns<real>, out: Columns<real>, revs: seq<real>, rate: int)
    requires Averaged(work, revs, rate)
    requires forall k :: k in out ==> KindOf(k) == FullRate || KindOf(k) == Score || KindOf(k) == Inversion
    requires forall k :: k in out && KindOf(k) == Score ==> |out[k]| == |work[TsaResid]|
    ensures Averaged(work + out, revs, rate)
  {
    var all := work + out;
    assert TsaResid !in out && Sig !in out && T !in out && Rev !in out && X !in out && Y !in out;
    assert all[TsaResid] == work[TsaResid] && all[Sig] == work[Sig];
  }

  // invert's own column is cut to no length: it joins at any stage.
  lemma InversionJoins(work: Columns<real>, out: Columns<real>, revs: seq<real>, rate: int)
    requires Stage(work, revs, rate) && out.Keys == {Inverted}
    ensures Stage(work + out, revs, rate)
  {
    assert KindOf(Inverted) == Inversion;
    if TsaResid in work {
      AveragedGrows(work, out, revs, rate);
    } else if T in work {
      OnGridGrows(work, out, revs, rate);
    } else {
      assert BeforeGrid(work + out);
    }
  }

  lemma OnGridGrows(work: Columns<real>, out: Columns<real>, revs: seq<real>, rate: int)
    requires OnGrid(work, revs, rate)
    requires forall k :: k in out ==> KindOf(k) == FullRate || KindOf(k) == Inversion
    ensures OnGrid(work + out, revs, rate)
  {
    assert Rev !in out;
  }

  lemma ProducedKinds(op: Op, c: Col)
    requires c in Produces(op)
    ensures op == FrameTransform ==> KindOf(c) == FullRate && c != Revs
    ensures IsStatistic(op) || op == Envelope ==> KindOf(c) == Score
  {
  }

  lemma {:induction false} FrameStage(work: Columns<real>, out: Produced<real>, revs: seq<real>, rate: int)
    requires Stage(work, revs, rate) && out.cols.Keys == Produces(FrameTransform) && out.cut.None?
    ensures Stage(Merge(work, out), revs, rate)
  {
    forall k | k in out.cols
      ensures KindOf(k) == FullRate && k != Revs
    {
      ProducedKinds(FrameTransform, k);
    }
    FullRateJoins(work, out.cols, revs, rate);
  }

  lemma FullRateJoins(work: Columns<real>, out: Columns<real>, revs: seq<real>, rate: int)
    requires Stage(work, revs, rate) && forall k :: k in out ==> KindOf(k) == FullRate && k != Revs
    ensures Stage(work + out, revs, rate)
  {
    assert KindOf(T) == Grid && KindOf(TsaResid) == Residual;
    if TsaResid in work {
      AveragedGrows(work, out, revs, rate);
    } else if T in work {
      OnGridGrows(work, out, revs, rate);
    } else {
      assert BeforeGrid(work + out);
    }
  }

  // Statistics and the envelope.
  lemma {:induction false} ScoreStage(work: Columns<real>, out: Columns<real>, op: Op, revs: seq<real>, rate: int)
    requires Averaged(work, revs, rate) && Revs in work && work[Revs] == revs && out.Keys == Produces(op)
    requires IsStatistic(op) || op == Envelope
    requires forall k :: k in out ==> |out[k]| == |work[TsaResid]|
    ensures Stage(work + out, revs, rate)
  {
    forall k | k in out
      ensures KindOf(k) == Score
    {
      ProducedKinds(op, k);
    }
    AveragedGrows(work, out, revs, rate);
  }

  lemma ScoresComeLate(work: Columns<real>, op: Op, revs: seq<real>, rate: int)
    requires Stage(work, revs, rate) && Needs(op) <= work.Keys && (IsStatistic(op) || op == Envelope)
    ensures TsaResid in work
  {
    if op == RadialDetrend || op == Envelope {
      assert TsaResid in Needs(op);
    } else {
      assert ResidZ in Needs(op) && KindOf(ResidZ) == Score;
    }
  }

  // The full-rate envelope is cut to the angular length.
  lemma {:induction false} EnvelopeLength(lib: Library, th: Threads, c: Canonical, work: Columns<real>, p: Params,
                                          ins: Resolved, revs: seq<real>)
    requires c.op == Envelope && FitsGrid(th, c, work) && Effective(th, c.params) == Ok(p)
    requires Averaged(work, revs, GridRate(th)) && Needs(Envelope) <= work.Keys && work[Revs] == revs
    requires EnvelopeStep(lib, Restrict(p, Envelope), work, ins).Ok?
    ensures var out := EnvelopeStep(lib, Restrict(p, Envelope), work, ins).value.cols;
      out.Keys == {EnvBand} && |out[EnvBand]| == |work[TsaResid]|
  {
    SeenRate(th, c, work, p);
  }

  lemma {:induction false} EnvelopeStage(lib: Library, th: Threads, c: Canonical, work: Columns<real>, p: Params,
                                         ins: Resolved, out: Produced<real>, revs: seq<real>)
    requires c.op == Envelope && FitsGrid(th, c, work) && Effective(th, c.params) == Ok(p)
    requires Stage(work, revs, GridRate(th)) && Needs(Envelope) <= work.Keys
    requires EnvelopeStep(lib, Restrict(p, Envelope), work, ins) == Ok(out) && out.cut.None?
    ensures Stage(Merge(work, out), revs, GridRate(th))
  {
    ScoresComeLate(work, c.op, revs, GridRate(th));
    EnvelopeLength(lib, th, c, work, p, ins, revs);
    ScoreStage(work, out.cols, c.op, revs, GridRate(th));
  }

  // Once averaged, a statistic scores every angular point and nothing else.
  lemma StatisticLength(lib: Library, op: Op, work: Columns<real>, p: Params, ins: Resolved, revs: seq<real>, rate: int)
    requires IsStatistic(op) && Averaged(work, revs, rate) && Needs(op) <= work.Keys
    requires StatisticStep(lib, op, p, work, ins).Ok?
    ensures var out := StatisticStep(lib, op, p, work, ins).value.cols;
      out.Keys == Produces(op) && forall k :: k in out ==> |out[k]| == |work[TsaResid]|
  {
    var sized := StatisticSize(lib, op, work, p, ins);
    SizedByGrid(work, revs, rate, sized);
  }

  lemma SizedByGrid(work: Columns<real>, revs: seq<real>, rate: int, c: Col)
    requires Averaged(work, revs, rate) && c in work && (c == X || c == ResidZ)
    ensures |work[c]| == |work[TsaResid]|
  {
    assert KindOf(X) == Grid && KindOf(ResidZ) == Score;
  }

  lemma StatisticSize(lib: Library, op: Op, work: Columns<real>, p: Params, ins: Resolved) returns (c: Col)
    requires IsStatistic(op) && StatisticStep(lib, op, p, work, ins).Ok?
    requires Needs(op) <= work.Keys
    ensures (c == X || c == ResidZ) && c in work
    ensures var out := StatisticStep(lib, op, p, work, ins).value.cols;
      out.Keys == Produces(op) && forall k :: k in out ==> |out[k]| == |work[c]|
  {
    c := if op.RadialDetrend? || op.GrowSegmentation? then X else ResidZ;
  }

  lemma {:induction false} StatisticStage(lib: Library, c: Canonical, work: Columns<real>, p: Params, ins: Resolved,
                                          out: Produced<real>, revs: seq<real>, rate: int)
    requires IsStatistic(c.op) && Stage(work, revs, rate) && Needs(c.op) <= work.Keys
    requires StatisticStep(lib, c.op, p, work, ins) == Ok(out) && out.cut.None?
    ensures Stage(Merge(work, out), revs, rate)
  {
    ScoresComeLate(work, c.op, revs, rate);
    StatisticLength(lib, c.op, work, p, ins, revs, rate);
    ScoreStage(work, out.cols, c.op, revs, rate);
  }

  // Step c, given params p, ran and produced out.
  predicate Ran(lib: Library, c: Canonical, p: Params, work: Columns<real>, ins: Resolved, out: Produced<real>) {
    && Needs(c.op) <= work.Keys && !c.op.Unregistered?
    && out.cols.Keys == Produces(c.op) && (out.cut.Some? <==> c.op == Tsa)
    && (c.op == FrameTransform ==> FrameStep(lib, Restrict(p, c.op), work, ins) == Ok(out))
    && (c.op == AngularResample ==> AngularStep(Restrict(p, c.op), work) == Ok(out))
    && (c.op == Tsa ==> TsaStep(Restrict(p, c.op), work) == Ok(out))
    && (c.op == Envelope ==> EnvelopeStep(lib, Restrict(p, c.op), work, ins) == Ok(out))
    && (c.op == Invert ==> InvertStep(lib, Restrict(p, c.op), work, ins) == Ok(out))
    && (IsStatistic(c.op) ==> StatisticStep(lib, c.op, Restrict(p, c.op), work, ins) == Ok(out))
  }

  // Every step of a one-grid recipe keeps the stage invariant.
  lemma {:induction false} StepKeepsStage(lib: Library, layers: LayerSet, th: Threads, c: Canonical, work: Columns<real>, revs: seq<real>)
    requires FitsGrid(th, c, work) && Stage(work, revs, GridRate(th))
    requires Apply(Registered(lib, layers), th, c, work).Ok?
    ensures Stage(Apply(Registered(lib, layers), th, c, work).value, revs, GridRate(th))
  {
    var p, ins, out := Applied(lib, layers, th, c, work);
    StageAfter(lib, th, c, work, p, ins, out, revs);
  }

  lemma {:induction false} StageAfter(lib: Library, th: Threads, c: Canonical, work: Columns<real>, p: Params, ins: Resolved,
                                      out: Produced<real>, revs: seq<real>)
    requires FitsGrid(th, c, work) && Stage(work, revs, GridRate(th)) && Effective(th, c.params) == Ok(p)
    requires Ran(lib, c, p, work, ins, out)
    ensures Stage(Merge(work, out), revs, GridRate(th))
  {
    if c.op == AngularResample {
      ResampleStage(th, c, work, p, out, revs);
    } else if c.op == Tsa {
      TsaStage(th, c, work, p, out, revs);
    } else if c.op == Invert {
      InversionJoins(work, out.cols, revs, GridRate(th));
    } else if c.op == FrameTransform {
      FrameStage(work, out, revs, GridRate(th));
    } else if c.op == Envelope {
      EnvelopeStage(lib, th, c, work, p, ins, out, revs);
    } else {
      StatisticStage(lib, c, work, Restrict(p, c.op), ins, out, revs, GridRate(th));
    }
  }

  // The one angular_resample of the list is the one the runner threads from.
  lemma {:induction false} ThreadIsTheStep(steps: seq<Step>, i: nat, op: Op)
    requires OnlyOne(steps, op) && i < |steps| && steps[i].op == op
    ensures FirstParams(steps, op) == Some(steps[i].params)
  {
    if i > 0 {
      assert steps[0].op != op;
      var rest := steps[1..];
      assert OnlyOne(rest, op) by {
        forall a, b | 0 <= a < |rest| && 0 <= b < |rest| && rest[a].op == op && rest[b].op == op
          ensures a == b
        {
          assert rest[a] == steps[a + 1] && rest[b] == steps[b + 1];
        }
      }
      ThreadIsTheStep(rest, i - 1, op);
    }
  }

  lemma {:induction false} ProducedOnce(steps: seq<Step>, i: nat, op: Op, c: Col)
    requires OnlyOne(steps, op) && i < |steps| && steps[i].op == op
    requires c !in SEED_COLUMNS && (forall o: Op :: c in Produces(o) ==> o == op)
    ensures c !in Have(steps[..i])
  {
    if c in Have(steps[..i]) {
      var j := ProducerOf(steps[..i], c);
    }
  }

  lemma SoleProducers(o: Op)
    ensures T in Produces(o) ==> o == AngularResample
    ensures TsaResid in Produces(o) ==> o == Tsa
  {
  }

  lemma {:induction false} StepFits(steps: seq<Step>, i: nat, work: Columns<real>)
    requires Accepts(steps) && OneGrid(steps) && i < |steps| && steps[i].on && work.Keys == Have(steps[..i])
    requires ThreadsOf(steps).resample.Some?
    ensures FitsGrid(ThreadsOf(steps), CanonicalOf(steps[i]), work)
  {
    assert StepOk(steps, i);
    forall o
      ensures T in Produces(o) ==> o == AngularResample
      ensures TsaResid in Produces(o) ==> o == Tsa
    {
      SoleProducers(o);
    }
    if steps[i].op == AngularResample {
      ThreadIsTheStep(steps, i, AngularResample);
      ProducedOnce(steps, i, AngularResample, T);
    } else if steps[i].op == Tsa {
      ProducedOnce(steps, i, Tsa, TsaResid);
    }
  }

  lemma SeedsBeforeGrid(seeds: Columns<real>, rate: int)
    requires seeds.Keys == SEED_COLUMNS
    ensures Stage(seeds, seeds[Revs], rate)
  {
    forall c | c in seeds
      ensures KindOf(c) == FullRate
    {
      KindsOfSets(c);
    }
    assert KindOf(T) == Grid && KindOf(TsaResid) == Residual;
  }

  ghost predicate KeepsStage(env: Env<real>, th: Threads, revs: seq<real>) {
    forall c, work :: FitsGrid(th, c, work) && Stage(work, revs, GridRate(th)) && Apply(env, th, c, work).Ok?
      ==> Stage(Apply(env, th, c, work).value, revs, GridRate(th))
  }

  lemma RegisteredKeepsStage(lib: Library, layers: LayerSet, th: Threads, revs: seq<real>)
    ensures KeepsStage(Registered(lib, layers), th, revs)
  {
    forall c, work | FitsGrid(th, c, work) && Stage(work, revs, GridRate(th)) && Apply(Registered(lib, layers), th, c, work).Ok?
      ensures Stage(Apply(Registered(lib, layers), th, c, work).value, revs, GridRate(th))
    {
      StepKeepsStage(lib, layers, th, c, work, revs);
    }
  }

  lemma {:induction false} RunKeepsStage(env: Env<real>, steps: seq<Step>, i: nat, seeds: Columns<real>)
    requires Accepts(steps) && OneGrid(steps) && seeds.Keys == SEED_COLUMNS && i <= |steps|
    requires KeepsContract(env) && KeepsStage(env, ThreadsOf(steps), seeds[Revs])
    requires ThreadsOf(steps).resample.Some? && RunRange(env, steps, 0, i, seeds).Ok?
    ensures Stage(RunRange(env, steps, 0, i, seeds).value, seeds[Revs], GridRate(ThreadsOf(steps)))
  {
    if i == 0 {
      SeedsBeforeGrid(seeds, GridRate(ThreadsOf(steps)));
    } else {
      RunRangeStep(env, steps, 0, i - 1, seeds);
      RunKeepsStage(env, steps, i - 1, seeds);
      WorkHoldsHave(env, steps, i - 1, seeds);
      if steps[i - 1].on {
        StepFits(steps, i - 1, RunRange(env, steps, 0, i - 1, seeds).value);
      }
    }
  }

  // A work dict with a residual is assembled at the residual's length, whole revolutions of the grid, but for an
  // inversion that is shorter.
  lemma Assembled(env: Env<real>, work: Columns<real>, revs: seq<real>, rate: int) returns (n: nat)
    requires TsaResid in work && Stage(work, revs, rate)
    ensures 1 <= rate <= n && n % rate == 0 && n == WholeLength(revs, rate)
    ensures Assemble(env, work).Ok?
    ensures forall c :: c in PUBLIC_COLUMNS <==> c in Assemble(env, work).value
    ensures forall c :: c in Assemble(env, work).value && c != Inverted ==> |Assemble(env, work).value[c]| == n
    ensures |Assemble(env, work).value[Inverted]| == n <==> Inverted !in work || |work[Inverted]| >= n
  {
    n := |work[TsaResid]|;
    AssembledLengths(env, work, revs, rate);
  }

  lemma AssembledLengths(env: Env<real>, work: Columns<real>, revs: seq<real>, rate: int)
    requires TsaResid in work && Averaged(work, revs, rate)
    ensures Assemble(env, work).Ok?
    ensures forall c :: c in PUBLIC_COLUMNS <==> c in Assemble(env, work).value
    ensures forall c :: c in Assemble(env, work).value && c != Inverted ==> |Assemble(env, work).value[c]| == |work[TsaResid]|
    ensures |Assemble(env, work).value[Inverted]| == |work[TsaResid]| <==> Inverted !in work || |work[Inverted]| >= |work[TsaResid]|
  {
    AssembledKeys(env, work);
    forall c | c in Assemble(env, work).value
      ensures c != Inverted ==> |Assemble(env, work).value[c]| == |work[TsaResid]|
    {
      AssembledColumn(env, work, c);
      if c in work && c != Inverted {
        PublicIsAngular(c);
        LongEnough(work, revs, rate, c);
      }
    }
    AssembledColumn(env, work, Inverted);
  }

  lemma AssembledKeys(env: Env<real>, work: Columns<real>)
    requires TsaResid in work
    ensures Assemble(env, work).Ok? && Inverted in Assemble(env, work).value
    ensures forall c :: c in PUBLIC_COLUMNS <==> c in Assemble(env, work).value
  {
    assert PUBLIC_COLUMNS[12] == Inverted;
  }

  // Each is cut or filled to the residual's length, or left if it is shorter.
  lemma AssembledColumn(env: Env<real>, work: Columns<real>, c: Col)
    requires TsaResid in work && Assemble(env, work).Ok? && c in Assemble(env, work).value
    ensures |Assemble(env, work).value[c]| == if c in work && |work[c]| < |work[TsaResid]| then |work[c]| else |work[TsaResid]|
  {
  }

  lemma LongEnough(work: Columns<real>, revs: seq<real>, rate: int, k: Col)
    requires Averaged(work, revs, rate) && k in work && KindOf(k) != FullRate && k != Inverted
    ensures |work[k]| >= |work[TsaResid]|
  {
    assert KindOf(k) == Signal ==> k == Sig;
    assert KindOf(k) == Residual ==> k == TsaResid;
    assert KindOf(k) == Inversion ==> k == Inverted;
  }

  /**
   For every work dict, of whatever recipe: the assembled columns have one length if and only if no public column
   is shorter than the residual.
   */
  lemma AssembledAgreeExactly(env: Env<real>, work: Columns<real>)
    requires TsaResid in work
    ensures (forall c :: c in Assemble(env, work).value ==> |Assemble(env, work).value[c]| == |work[TsaResid]|)
       <==> forall c :: c in PUBLIC_COLUMNS && c in work ==> |work[c]| >= |work[TsaResid]|
  {
    AssembledKeys(env, work);
    forall c | c in Assemble(env, work).value
      ensures |Assemble(env, work).value[c]| == |work[TsaResid]| <==> (c in work ==> |work[c]| >= |work[TsaResid]|)
    {
      AssembledColumn(env, work, c);
    }
  }

  lemma PublicIsAngular(c: Col)
    requires c in PUBLIC_COLUMNS
    ensures KindOf(c) != FullRate
  {
  }

  // A residual can only have come from tsa, fed by an enabled angular_resample.
  lemma {:induction false} ResidualNeedsGrid(steps: seq<Step>, hi: nat)
    requires Accepts(steps) && hi <= |steps| && TsaResid in Have(steps[..hi])
    ensures ThreadsOf(steps).resample.Some?
  {
    var t := ProducerOf(steps[..hi], TsaResid);
    SoleProducers(steps[t].op);
    assert StepOk(steps, t);
    var a := ProducerOf(steps[..t], Sig);
    assert steps[a].op == AngularResample;
    FirstParamsFound(steps, AngularResample, a);
  }

  lemma RunStages(lib: Library, layers: LayerSet, env: Env<real>, steps: seq<Step>, seeds: Columns<real>, hi: nat)
    requires env == Registered(lib, layers) && Accepts(steps) && OneGrid(steps) && seeds.Keys == SEED_COLUMNS && hi <= |steps|
    requires RunRange(env, steps, 0, hi, seeds).Ok? && TsaResid in RunRange(env, steps, 0, hi, seeds).value
    ensures ThreadsOf(steps).resample.Some?
    ensures Stage(RunRange(env, steps, 0, hi, seeds).value, seeds[Revs], GridRate(ThreadsOf(steps)))
  {
    RegisteredKeepsContract(lib, layers);
    WorkHoldsHave(env, steps, hi, seeds);
    ResidualNeedsGrid(steps, hi);
    RegisteredKeepsStage(lib, layers, ThreadsOf(steps), seeds[Revs]);
    RunKeepsStage(env, steps, hi, seeds);
  }

  // The default recipe has one grid.
  lemma DefaultHasOneGrid()
    ensures Accepts(DefaultRecipe()) && OneGrid(DefaultRecipe())
  {
    DefaultIsAccepted();
    OnlyOneEach();
  }

  lemma OnlyOneEach()
    ensures OneGrid(DefaultRecipe())
  {
    forall i | 0 <= i < 7
      ensures DefaultRecipe()[i].op == AngularResample ==> i == 1
      ensures DefaultRecipe()[i].op == Tsa ==> i == 2
      ensures SamplesPerRev in DefaultRecipe()[i].params ==> DefaultRecipe()[i].op == AngularResample
      ensures DefaultRecipe()[i].op != Invert
    {
      DefaultGrid(i);
    }
  }

  lemma DefaultGrid(i: nat)
    requires i < 7
    ensures var s := DefaultRecipe()[i];
      && (s.op == AngularResample <==> i == 1) && (s.op == Tsa <==> i == 2) && s.op != Invert
      && (SamplesPerRev in s.params ==> s.op == AngularResample)
  {
  }
}
