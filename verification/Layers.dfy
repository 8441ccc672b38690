/** scripts/diag/layers.py: even-odd fill of hand-painted polygons. */
module Layers {
  import opened Arith
  import opened Wrappers

  datatype Pt = Pt(x: real, y: real)

  type Ring = seq<Pt>

  predicate Straddles(p: Pt, q: Pt, y: real) {
    (p.y > y) != (q.y > y)
  }

  // Where the edge from vertex j to vertex i meets the horizontal through y.
  function Intercept(i: Pt, j: Pt, y: real): real
    requires i.y != j.y
  {
    (j.x - i.x) * (y - i.y) / (j.y - i.y) + i.x
  }

  predicate Hit(i: Pt, j: Pt, at: Pt) {
    Straddles(i, j, at.y) && at.x < Intercept(i, j, at.y)
  }

  predicate Xor(a: bool, b: bool) {
    a != b
  }

  // Parity of the hits along an open path.
  predicate PathParity(path: seq<Pt>, at: Pt) {
    if |path| < 2 then false
    else Xor(PathParity(path[..|path| - 1], at), Hit(path[|path| - 1], path[|path| - 2], at))
  }

  // The closing edge is the one the source's loop starts with (i = 0, j = m - 1).
  predicate Contains(ring: Ring, at: Pt) {
    ring != [] && Xor(Hit(ring[0], ring[|ring| - 1], at), PathParity(ring, at))
  }

  method RingContains(ring: Ring, x: seq<real>, y: seq<real>) returns (inside: array<bool>)
    requires |x| == |y|
    ensures fresh(inside) && inside.Length == |x|
    ensures forall k :: 0 <= k < |x| ==> inside[k] == Contains(ring, Pt(x[k], y[k]))
  {
    inside := new bool[|x|](_ => false);
    var j := |ring| - 1;
    for i := 0 to |ring|
      invariant j == if i == 0 then |ring| - 1 else i - 1
      invariant forall k :: 0 <= k < |x| ==>
        inside[k] == (i > 0 && Xor(Hit(ring[0], ring[|ring| - 1], Pt(x[k], y[k])), PathParity(ring[..i], Pt(x[k], y[k]))))
    {
      for k := 0 to |x|
        invariant forall h :: k <= h < |x| ==>
          inside[h] == (i > 0 && Xor(Hit(ring[0], ring[|ring| - 1], Pt(x[h], y[h])), PathParity(ring[..i], Pt(x[h], y[h]))))
        invariant forall h :: 0 <= h < k ==>
          inside[h] == Xor(Hit(ring[0], ring[|ring| - 1], Pt(x[h], y[h])), PathParity(ring[..i + 1], Pt(x[h], y[h])))
      {
        assert ring[..i + 1][..i] == ring[..i];
        inside[k] := Xor(inside[k], Hit(ring[i], ring[j], Pt(x[k], y[k])));
      }
      j := i;
    }
    assert ring[..|ring|] == ring;
  }

  predicate InAny(polygons: seq<Ring>, at: Pt) {
    exists r :: 0 <= r < |polygons| && Contains(polygons[r], at)
  }

  // A ring has at least three vertices.
  predicate ValidGeometry(polygons: seq<Ring>) {
    forall r :: 0 <= r < |polygons| ==> |polygons[r]| >= 3
  }

  method ValidateGeometry(polygons: seq<Ring>) returns (valid: bool)
    ensures valid <==> ValidGeometry(polygons)
  {
    for r := 0 to |polygons|
      invariant forall k :: 0 <= k < r ==> |polygons[k]| >= 3
    {
      if |polygons[r]| < 3 {
        return false;
      }
    }
    return true;
  }

  // None where the geometry is refused.
  method RasterizePolygons(polygons: seq<Ring>, x: seq<real>, y: seq<real>) returns (mask: Option<array<bool>>)
    requires |x| == |y|
    ensures mask.Some? <==> ValidGeometry(polygons)
    ensures mask.Some? ==> fresh(mask.value) && mask.value.Length == |x|
    ensures mask.Some? ==> forall k :: 0 <= k < |x| ==> mask.value[k] == InAny(polygons, Pt(x[k], y[k]))
  {
    var valid := ValidateGeometry(polygons);
    if !valid {
      return None;
    }
    var out := new bool[|x|](_ => false);
    for r := 0 to |polygons|
      invariant forall k :: 0 <= k < |x| ==> out[k] == InAny(polygons[..r], Pt(x[k], y[k]))
    {
      var inside := RingContains(polygons[r], x, y);
      forall k | 0 <= k < |x| {
        out[k] := out[k] || inside[k];
      }
      forall at: Pt
        ensures InAny(polygons[..r + 1], at) == (InAny(polygons[..r], at) || Contains(polygons[r], at))
      {
        InAnyStep(polygons, r, at);
      }
    }
    assert polygons[..|polygons|] == polygons;
    return Some(out);
  }

  lemma InAnyStep(polygons: seq<Ring>, r: nat, at: Pt)
    requires r < |polygons|
    ensures InAny(polygons[..r + 1], at) == (InAny(polygons[..r], at) || Contains(polygons[r], at))
  {
    if InAny(polygons[..r], at) {
      var k :| 0 <= k < r && Contains(polygons[..r][k], at);
      assert Contains(polygons[..r + 1][k], at);
    }
    if Contains(polygons[r], at) {
      assert Contains(polygons[..r + 1][r], at);
    }
    if InAny(polygons[..r + 1], at) {
      var k :| 0 <= k < r + 1 && Contains(polygons[..r + 1][k], at);
      assert k < r ==> Contains(polygons[..r][k], at);
    }
  }

  // ---- an edge counts the same in either direction ----

  // Side of the line j->i the point is on: positive iff it lies left of the upward direction.
  function Cross(i: Pt, j: Pt, at: Pt): real {
    (j.x - i.x) * (at.y - i.y) - (j.y - i.y) * (at.x - i.x)
  }

  // An upward edge (i below, j above) is hit iff the point is strictly left of it.
  lemma {:induction false} HitUp(i: Pt, j: Pt, at: Pt)
    requires i.y <= at.y < j.y
    ensures Hit(i, j, at) <==> Cross(i, j, at) > 0.0
  {
    var num, d, a := (j.x - i.x) * (at.y - i.y), j.y - i.y, at.x - i.x;
    var q := num / d;
    DivTimes(num, d);
    MulOrder(a, q, d);
    assert Intercept(i, j, at.y) == q + i.x;
    assert Cross(i, j, at) == num - a * d;
  }

  // A downward edge (i above, j below) is hit iff the point is strictly right of it.
  lemma {:induction false} HitDown(i: Pt, j: Pt, at: Pt)
    requires j.y <= at.y < i.y
    ensures Hit(i, j, at) <==> Cross(i, j, at) < 0.0
  {
    var num, d, a := (j.x - i.x) * (at.y - i.y), j.y - i.y, at.x - i.x;
    var q := num / d;
    DivTimes(num, d);
    MulOrder(a, q, -d);
    assert Intercept(i, j, at.y) == q + i.x;
    assert Cross(i, j, at) == num - a * d;
    assert q * (-d) == -(q * d) && a * (-d) == -(a * d);
  }

  lemma CrossFlips(i: Pt, j: Pt, at: Pt)
    ensures Cross(j, i, at) == -Cross(i, j, at)
  {
    calc {
      Cross(j, i, at) + Cross(i, j, at);
      (i.x - j.x) * (at.y - j.y) - (i.y - j.y) * (at.x - j.x) + (j.x - i.x) * (at.y - i.y) - (j.y - i.y) * (at.x - i.x);
      0.0;
    }
  }

  lemma {:induction false} HitSymmetric(i: Pt, j: Pt, at: Pt)
    ensures Hit(i, j, at) == Hit(j, i, at)
  {
    CrossFlips(i, j, at);
    if i.y <= at.y < j.y {
      HitUp(i, j, at);
      HitDown(j, i, at);
    } else if j.y <= at.y < i.y {
      HitDown(i, j, at);
      HitUp(j, i, at);
    }
  }
}
