/** scripts/diag/registry.py: step contracts and the static checker. */
module Registry {
  // The contracts are those of the decorators in scripts/diag/ops.py; Accepts is the reference meaning of
  // "accepted".

  import opened Wrappers
  import opened Recipe
  import opened Layers

  type Columns<V> = map<Col, seq<V>>

  datatype RunError = Rejected | Failed | NoAngularLength | NotPresent(col: Col)

  // A mask over the grid, or the 0-d one that is false: before there is a grid x and y are None.
  datatype Raster = Scalar | PerPoint(inside: seq<bool>)

  // A binding resolved: one mask, no layer, or an ordered list of named masks.
  datatype Mask = Points(raster: Raster) | NoLayer | Named(masks: seq<(string, Raster)>)

  type Resolved = map<string, Mask>

  const SEED_COLUMNS: set<Col> := {TRaw, Fx, Fy, Fz, Rpm, Revs, XRaw, YRaw}

  function Produces(op: Op): set<Col> {
    match op
    case FrameTransform => {Fc, Ff, Fp}
    case AngularResample => {T, Rev, X, Y, Sig}
    case Tsa => {TsaResid}
    case RadialDetrend => {ResidZ}
    case GetisOrd => {GiStar, GiSig}
    case Hdbscan => {ClusterId, Glosh}
    case Envelope => {EnvBand}
    case GrowSegmentation => {SegmentId}
    case Invert => {Inverted}
    case Griddify => {GridFill, GridSupport}
    case GmmSegmentation => {GmmId, GmmProb}
    case Unregistered(_) => {}
  }

  function Needs(op: Op): set<Col> {
    match op
    case FrameTransform => {Fx, Fy, Fz}
    case AngularResample => {Revs, TRaw, XRaw, YRaw, Fc, Ff, Fp}
    case Tsa => {Sig, Rev}
    case RadialDetrend => {TsaResid, X, Y}
    case Envelope => {Fc, Ff, Fp, Revs, TRaw, TsaResid}
    case Invert => {}
    case Unregistered(_) => {}
    case _ => {X, Y, ResidZ}
  }

  predicate IsBaseTier(op: Op) {
    op.FrameTransform? || op.AngularResample? || op.Envelope?
  }

  // Columns available before step i of an accepted prefix: the seeds and what enabled steps produced.
  function Have(steps: seq<Step>): set<Col> {
    if steps == [] then SEED_COLUMNS else
      var last := steps[|steps| - 1];
      Have(steps[..|steps| - 1]) + (if last.on then Produces(last.op) else {})
  }

  predicate FreshId(steps: seq<Step>, i: nat)
    requires i < |steps|
  {
    forall j :: 0 <= j < i ==> steps[j].id != steps[i].id
  }

  predicate StepOk(steps: seq<Step>, i: nat)
    requires i < |steps|
  {
    && FreshId(steps, i)
    && !steps[i].op.Unregistered?
    && (steps[i].on ==> Needs(steps[i].op) <= Have(steps[..i]))
  }

  // What a recipe must satisfy to be runnable.
  predicate Accepts(steps: seq<Step>) {
    forall i :: 0 <= i < |steps| ==> StepOk(steps, i)
  }

  datatype RecipeError =
    | DuplicateId(id: Option<string>)
    | UnknownOp(op: Op, id: Option<string>)
    | Missing(id: Option<string>, op: Op, cols: set<Col>)

  // The error names the complaint that step i of the list earns.
  predicate Complains(steps: seq<Step>, i: nat, e: RecipeError)
    requires i < |steps|
  {
    var s := steps[i];
    if !FreshId(steps, i) then e == DuplicateId(s.id)
    else if s.op.Unregistered? then e == UnknownOp(s.op, s.id)
    else s.on && e == Missing(s.id, s.op, Needs(s.op) - Have(steps[..i])) && e.cols != {}
  }

  method ValidateRecipe(steps: seq<Step>) returns (r: Result<(), RecipeError>)
    ensures r.Ok? <==> Accepts(steps)
    ensures r.Err? ==> exists i :: 0 <= i < |steps| && Accepts(steps[..i]) && Complains(steps, i, r.error)
  {
    var have := SEED_COLUMNS;
    var seen: set<Option<string>> := {};
    for i := 0 to |steps|
      invariant have == Have(steps[..i])
      invariant forall id :: id in seen <==> exists j :: 0 <= j < i && steps[j].id == id
      invariant Accepts(steps[..i])
      invariant forall j :: 0 <= j < i ==> StepOk(steps, j)
    {
      var s := steps[i];
      if s.id in seen {
        assert !StepOk(steps, i);
        return Err(DuplicateId(s.id));
      }
      seen := seen + {s.id};
      if s.op.Unregistered? {
        assert !StepOk(steps, i);
        return Err(UnknownOp(s.op, s.id));
      }
      assert steps[..i + 1][..i] == steps[..i];
      if s.on {
        var missing := Needs(s.op) - have;
        if missing != {} {
          assert !StepOk(steps, i);
          return Err(Missing(s.id, s.op, missing));
        }
        have := have + Produces(s.op);
      }
      assert StepOk(steps, i);
      AcceptsPrefix(steps, i + 1);
    }
    assert steps[..|steps|] == steps;
    return Ok(());
  }

  lemma AcceptsPrefix(steps: seq<Step>, n: nat)
    requires n <= |steps|
    requires forall i :: 0 <= i < n ==> StepOk(steps, i)
    ensures Accepts(steps[..n])
  {
    forall i | 0 <= i < n
      ensures StepOk(steps[..n], i)
    {
      assert steps[..n][..i] == steps[..i];
      assert StepOk(steps, i);
    }
  }

  // A column outside the seeds comes from an earlier enabled step that produces it.
  lemma {:induction false} ProducerOf(steps: seq<Step>, c: Col) returns (j: nat)
    requires c in Have(steps) && c !in SEED_COLUMNS
    ensures j < |steps| && steps[j].on && c in Produces(steps[j].op)
    decreases |steps|
  {
    var init, last := steps[..|steps| - 1], steps[|steps| - 1];
    if last.on && c in Produces(last.op) {
      j := |steps| - 1;
    } else {
      j := ProducerOf(init, c);
    }
  }

  // One more step brings what it produces, if it is on.
  lemma HaveStep(steps: seq<Step>, i: nat)
    requires i < |steps|
    ensures Have(steps[..i + 1]) == Have(steps[..i]) + (if steps[i].on then Produces(steps[i].op) else {})
  {
    assert steps[..i + 1][..i] == steps[..i];
  }

  lemma HaveNothing(steps: seq<Step>)
    ensures Have(steps[..0]) == SEED_COLUMNS
  {
    assert steps[..0] == [];
  }

  // The default recipe passes the check.
  lemma DefaultIsAccepted()
    ensures Accepts(DefaultRecipe())
  {
    forall i | 0 <= i < 7
      ensures StepOk(DefaultRecipe(), i)
    {
      HaveOfDefault(DefaultRecipe(), i);
      DefaultNeeds(i);
    }
  }

  lemma DefaultNeeds(i: nat)
    requires i < 7
    ensures var s := DefaultRecipe()[i];
      && FreshId(DefaultRecipe(), i) && !s.op.Unregistered?
      && Needs(s.op) <= SEED_COLUMNS + DefaultBrings(i)
  {
  }

  // What the first i steps of the default recipe bring that later ones need.
  function DefaultBrings(i: nat): set<Col> {
    (if i >= 1 then {Fc, Ff, Fp} else {}) + (if i >= 2 then {T, Rev, X, Y, Sig} else {}) +
    (if i >= 3 then {TsaResid} else {}) + (if i >= 4 then {ResidZ} else {})
  }

  lemma {:induction false} HaveOfDefault(d: seq<Step>, i: nat)
    requires d == DefaultRecipe() && i <= 7
    ensures SEED_COLUMNS + DefaultBrings(i) <= Have(d[..i])
  {
    if i == 0 {
      HaveNothing(d);
    } else {
      HaveOfDefault(d, i - 1);
      HaveStep(d, i - 1);
      DefaultBringsMore(i - 1);
    }
  }

  lemma DefaultBringsMore(i: nat)
    requires i < 7
    ensures var s := DefaultRecipe()[i];
      DefaultBrings(i + 1) <= DefaultBrings(i) + (if s.on then Produces(s.op) else {})
  {
  }

  // ---- layer bindings ----

  type LayerSet = map<string, seq<Ring>>

  // The coordinate of the i-th point; an array of one is broadcast.
  function CoordinateOf(y: seq<real>, i: nat): real
    requires |y| == 1 || i < |y|
  {
    if |y| == 1 then y[0] else y[i]
  }

  // Rasterising gives a mask of the shape of x, or raises. Coordinates that are None count as NaN, which lies in
  // no ring; a ring over y alone has nowhere to go.
  function MaskOf(polygons: seq<Ring>, x: Option<seq<real>>, y: Option<seq<real>>): Result<Raster, RunError> {
    if !ValidGeometry(polygons) then Err(Failed)
    else if x.None? then if y.None? || polygons == [] then Ok(Scalar) else Err(Failed)
    else if y.None? || polygons == [] then Ok(PerPoint(seq(|x.value|, i => false)))
    else if |y.value| != |x.value| && |y.value| != 1 then Err(Failed)
    else Ok(PerPoint(seq(|x.value|, i requires 0 <= i < |x.value| => InAny(polygons, Pt(x.value[i], CoordinateOf(y.value, i))))))
  }

  predicate Listed(masks: seq<(string, Raster)>, name: string) {
    exists i :: 0 <= i < |masks| && masks[i].0 == name
  }

  // List mode: layers in the recipe's order, absent ones skipped, a repeated one where it is first listed.
  function NamedMasks(names: seq<string>, layers: LayerSet, x: Option<seq<real>>, y: Option<seq<real>>)
    : Result<seq<(string, Raster)>, RunError>
  {
    if names == [] then Ok([])
    else
      var before :- NamedMasks(names[..|names| - 1], layers, x, y);
      var name := names[|names| - 1];
      if name !in layers then Ok(before)
      else
        var mask :- MaskOf(layers[name], x, y);
        Ok(if Listed(before, name) then before else before + [(name, mask)])
  }

  function ResolveOne(b: Binding, layers: LayerSet, x: Option<seq<real>>, y: Option<seq<real>>): Result<Mask, RunError> {
    match b
    case Many(names, required) =>
      var masks :- NamedMasks(names, layers, x, y);
      if masks == [] && required then Err(Failed) else Ok(Named(masks))
    case One(name, required) =>
      if name !in layers then
        if required then Err(Failed) else Ok(NoLayer)
      else
        var mask :- MaskOf(layers[name], x, y);
        Ok(Points(mask))
  }

  function ResolveInputs(layers: LayerSet, op: Op, inputs: map<string, Binding>, x: Option<seq<real>>, y: Option<seq<real>>)
    : Result<Resolved, RunError>
  {
    if inputs == map[] then Ok(map[])
    else if IsBaseTier(op) then Err(Failed)
    else if exists k :: k in inputs && ResolveOne(inputs[k], layers, x, y).Err? then Err(Failed)
    else Ok(map k | k in inputs :: ResolveOne(inputs[k], layers, x, y).value)
  }

  // Of the shape of x: one entry per grid point, and none before there is a grid.
  predicate Shaped(r: Raster, x: Option<seq<real>>) {
    if x.None? then r == Scalar else r.PerPoint? && |r.inside| == |x.value|
  }

  // A resolved mask has the shape of the grid, and a layer can never reach a base-tier step.
  lemma ResolvedMasksFit(layers: LayerSet, op: Op, inputs: map<string, Binding>, x: Option<seq<real>>, y: Option<seq<real>>, k: string)
    requires ResolveInputs(layers, op, inputs, x, y).Ok?
    requires k in ResolveInputs(layers, op, inputs, x, y).value
    ensures !IsBaseTier(op) && k in inputs
    ensures var m := ResolveInputs(layers, op, inputs, x, y).value[k];
      && (m.Points? ==> Shaped(m.raster, x))
      && (m.NoLayer? <==> inputs[k].One? && inputs[k].layer !in layers)
      && (m.Named? ==> forall i :: 0 <= i < |m.masks| ==> Shaped(m.masks[i].1, x))
      && (m.Named? ==> forall i, j :: 0 <= i < j < |m.masks| ==> m.masks[i].0 != m.masks[j].0)
  {
    assert inputs != map[];
    assert ResolveOne(inputs[k], layers, x, y).Ok?;
    if inputs[k].Many? {
      NamedMasksFit(inputs[k].layers, layers, x, y);
    }
  }

  lemma {:induction false} NamedMasksFit(names: seq<string>, layers: LayerSet, x: Option<seq<real>>, y: Option<seq<real>>)
    requires NamedMasks(names, layers, x, y).Ok?
    ensures var masks := NamedMasks(names, layers, x, y).value;
      && (forall i :: 0 <= i < |masks| ==> Shaped(masks[i].1, x))
      && forall i, j :: 0 <= i < j < |masks| ==> masks[i].0 != masks[j].0
  {
    if names != [] {
      NamedMasksFit(names[..|names| - 1], layers, x, y);
    }
  }

  // A mask over the grid is the union of its rings, point by point.
  lemma MaskIsUnion(polygons: seq<Ring>, x: seq<real>, y: seq<real>)
    ensures MaskOf(polygons, Some(x), Some(y)).Ok? <==>
              (forall r :: 0 <= r < |polygons| ==> |polygons[r]| >= 3) && (polygons == [] || |y| == |x| || |y| == 1)
    ensures MaskOf(polygons, Some(x), Some(y)).Ok? ==>
              var m := MaskOf(polygons, Some(x), Some(y)).value;
              && m.PerPoint? && |m.inside| == |x|
              && (|y| == |x| ==> forall i :: 0 <= i < |x| ==> (m.inside[i] <==> exists r :: 0 <= r < |polygons| && Contains(polygons[r], Pt(x[i], y[i]))))
              && (|y| == 1 ==> forall i :: 0 <= i < |x| ==> (m.inside[i] <==> exists r :: 0 <= r < |polygons| && Contains(polygons[r], Pt(x[i], y[0]))))
  {
  }

  // Every place of the one in the list has a place of the other before it.
  predicate ListedBefore(names: seq<string>, a: string, b: string) {
    forall q :: 0 <= q < |names| && names[q] == b ==> a in names[..q]
  }

  // The masks of the layers there are among those named, each once, in the order of the list.
  ghost predicate ListHolds(names: seq<string>, layers: LayerSet, x: Option<seq<real>>, y: Option<seq<real>>, masks: seq<(string, Raster)>) {
    && (forall name :: Listed(masks, name) <==> name in names && name in layers)
    && (forall i :: 0 <= i < |masks| ==> masks[i].0 in layers && MaskOf(layers[masks[i].0], x, y) == Ok(masks[i].1))
    && forall i, j :: 0 <= i < j < |masks| ==> ListedBefore(names, masks[i].0, masks[j].0)
  }

  lemma {:induction false} NamedMasksHold(names: seq<string>, layers: LayerSet, x: Option<seq<real>>, y: Option<seq<real>>)
    requires NamedMasks(names, layers, x, y).Ok?
    ensures ListHolds(names, layers, x, y, NamedMasks(names, layers, x, y).value)
  {
    if names != [] {
      var init, last := names[..|names| - 1], names[|names| - 1];
      assert names == init + [last];
      NamedMasksHold(init, layers, x, y);
      var before := NamedMasks(init, layers, x, y).value;
      if last in layers && !Listed(before, last) {
        NewMaskHolds(init, last, layers, x, y, before, MaskOf(layers[last], x, y).value);
      } else {
        OldMasksHold(init, last, layers, x, y, before);
      }
    }
  }

  lemma ListedAppend(init: seq<string>, last: string, a: string, b: string)
    requires a in init && ListedBefore(init, a, b)
    ensures ListedBefore(init + [last], a, b)
  {
    forall q | 0 <= q < |init + [last]| && (init + [last])[q] == b
      ensures a in (init + [last])[..q]
    {
      assert (init + [last])[..q] == init[..q];
      assert init[..|init|] == init;
    }
  }

  lemma OldMasksHold(init: seq<string>, last: string, layers: LayerSet, x: Option<seq<real>>, y: Option<seq<real>>, before: seq<(string, Raster)>)
    requires ListHolds(init, layers, x, y, before) && (last in layers ==> Listed(before, last))
    ensures ListHolds(init + [last], layers, x, y, before)
  {
    forall i, j | 0 <= i < j < |before|
      ensures ListedBefore(init + [last], before[i].0, before[j].0)
    {
      assert Listed(before, before[i].0);
      ListedAppend(init, last, before[i].0, before[j].0);
    }
  }

  lemma NewMaskHolds(init: seq<string>, last: string, layers: LayerSet, x: Option<seq<real>>, y: Option<seq<real>>, before: seq<(string, Raster)>, mask: Raster)
    requires ListHolds(init, layers, x, y, before) && last in layers && !Listed(before, last) && MaskOf(layers[last], x, y) == Ok(mask)
    ensures ListHolds(init + [last], layers, x, y, before + [(last, mask)])
  {
    var masks := before + [(last, mask)];
    assert masks[|before|].0 == last;
    forall name
      ensures Listed(masks, name) <==> Listed(before, name) || name == last
    {
      if Listed(before, name) {
        var i :| 0 <= i < |before| && before[i].0 == name;
        assert masks[i].0 == name;
      }
    }
    forall i, j | 0 <= i < j < |masks|
      ensures ListedBefore(init + [last], masks[i].0, masks[j].0)
    {
      assert Listed(before, before[i].0);
      ListedAppend(init, last, masks[i].0, masks[j].0);
    }
  }

  // A single binding is the mask of its layer, a list the masks of the layers there are, each once.
  lemma ResolvedMasksHold(layers: LayerSet, op: Op, inputs: map<string, Binding>, x: Option<seq<real>>, y: Option<seq<real>>, k: string)
    requires ResolveInputs(layers, op, inputs, x, y).Ok?
    requires k in inputs
    ensures k in ResolveInputs(layers, op, inputs, x, y).value
    ensures var m, b := ResolveInputs(layers, op, inputs, x, y).value[k], inputs[k];
      && (b.One? && b.layer in layers ==> m.Points? && MaskOf(layers[b.layer], x, y) == Ok(m.raster))
      && (b.One? && b.layer !in layers ==> m.NoLayer? && !b.required)
      && (b.Many? ==> m.Named? && ListHolds(b.layers, layers, x, y, m.masks) && (b.required ==> m.masks != []))
  {
    assert ResolveOne(inputs[k], layers, x, y).Ok?;
    if inputs[k].Many? {
      NamedMasksHold(inputs[k].layers, layers, x, y);
    }
  }
}
