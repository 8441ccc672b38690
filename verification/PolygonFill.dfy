/** Laws of even-odd fill, for every ring and point. */
module PolygonFill {
  import opened Layers

  lemma ParityAppend(path: seq<Pt>, p: Pt, at: Pt)
    requires path != []
    ensures PathParity(path + [p], at) == Xor(PathParity(path, at), Hit(p, path[|path| - 1], at))
  {
    assert (path + [p])[..|path|] == path;
  }

  // Two paths joined by the edge between them.
  lemma {:induction false} ParityJoin(a: seq<Pt>, b: seq<Pt>, at: Pt)
    requires a != [] && b != []
    ensures PathParity(a + b, at) == Xor(PathParity(a + [b[0]], at), PathParity(b, at))
    decreases |b|
  {
    var init, last := b[..|b| - 1], b[|b| - 1];
    assert b == init + [last];
    if init == [] {
      assert b == [b[0]];
    } else {
      ParityJoin(a, init, at);
      ParityAppend(init, last, at);
      ParityAppend(a + init, last, at);
      assert a + b == a + init + [last];
    }
  }

  // A ring is its path closed by returning to the first vertex.
  lemma ContainsIsClosedPath(ring: Ring, at: Pt)
    requires ring != []
    ensures Contains(ring, at) == PathParity(ring + [ring[0]], at)
  {
    ParityAppend(ring, ring[0], at);
  }

  // A ring cut into two runs: there and back again.
  lemma {:induction false} ContainsTwoRuns(a: seq<Pt>, b: seq<Pt>, at: Pt)
    requires a != [] && b != []
    ensures Contains(a + b, at) == Xor(PathParity(a + [b[0]], at), PathParity(b + [a[0]], at))
  {
    ContainsIsClosedPath(a + b, at);
    assert a + b + [(a + b)[0]] == a + (b + [a[0]]);
    ParityJoin(a, b + [a[0]], at);
  }

  // Splitting a ring along the chord between vertices a and b.
  function PartA(ring: Ring, a: nat, b: nat): Ring
    requires a < b < |ring|
  {
    ring[a..b + 1]
  }

  function PartB(ring: Ring, a: nat, b: nat): Ring
    requires a < b < |ring|
  {
    ring[b..] + ring[..a + 1]
  }

  lemma {:induction false} ChordSplit(ring: Ring, a: nat, b: nat, at: Pt)
    requires a < b < |ring|
    ensures Contains(ring, at) == Xor(Contains(PartA(ring, a, b), at), Contains(PartB(ring, a, b), at))
  {
    RotationInvariant(ring, a, at);
    var there, back := ring[a..b], ring[b..] + ring[..a];
    assert ring[a..] + ring[..a] == there + back;
    assert PartA(ring, a, b) == there + [ring[b]];
    assert PartB(ring, a, b) == back + [ring[a]];
    TwoRunsClosed(there, back, at);
  }

  // Two runs of a ring, each closed by the edge between their first vertices.
  lemma TwoRunsClosed(there: seq<Pt>, back: seq<Pt>, at: Pt)
    requires there != [] && back != []
    ensures Contains(there + back, at) == Xor(Contains(there + [back[0]], at), Contains(back + [there[0]], at))
  {
    ContainsTwoRuns(there, back, at);
    ClosingEdge(there, back[0], at);
    ClosingEdge(back, there[0], at);
    HitSymmetric(there[0], back[0], at);
  }

  lemma ClosingEdge(path: seq<Pt>, p: Pt, at: Pt)
    requires path != []
    ensures Contains(path + [p], at) == Xor(PathParity(path + [p], at), Hit(path[0], p, at))
  {
  }

  lemma {:induction false} RotationInvariant(ring: Ring, k: nat, at: Pt)
    requires k <= |ring|
    ensures Contains(ring[k..] + ring[..k], at) == Contains(ring, at)
  {
    if k == 0 || k == |ring| {
      assert ring[k..] + ring[..k] == ring;
    } else {
      ContainsTwoRuns(ring[..k], ring[k..], at);
      ContainsTwoRuns(ring[k..], ring[..k], at);
      assert ring == ring[..k] + ring[k..];
    }
  }

  function Reversed(path: seq<Pt>): (r: seq<Pt>)
    ensures |r| == |path|
    ensures forall i :: 0 <= i < |r| ==> r[i] == path[|path| - 1 - i]
  {
    seq(|path|, i requires 0 <= i < |path| => path[|path| - 1 - i])
  }

  lemma {:induction false} ParityReversed(path: seq<Pt>, at: Pt)
    ensures PathParity(Reversed(path), at) == PathParity(path, at)
    decreases |path|
  {
    var n := |path|;
    if n >= 2 {
      var last, init := path[n - 1], path[..n - 1];
      ParityReversed(init, at);
      assert Reversed(path) == [last] + Reversed(init);
      ParityJoin([last], Reversed(init), at);
      PairParity(last, path[n - 2], at);
    }
  }

  lemma {:induction false} ReversalInvariant(ring: Ring, at: Pt)
    ensures Contains(Reversed(ring), at) == Contains(ring, at)
  {
    if ring != [] {
      ParityReversed(ring, at);
      HitSymmetric(ring[0], ring[|ring| - 1], at);
    }
  }

  // ---- outside the bounding box ----

  predicate CrossParity(path: seq<Pt>, y: real) {
    if |path| < 2 then false
    else Xor(CrossParity(path[..|path| - 1], y), Straddles(path[|path| - 1], path[|path| - 2], y))
  }

  lemma {:induction false} CrossingsTelescope(path: seq<Pt>, y: real)
    requires path != []
    ensures CrossParity(path, y) == Straddles(path[0], path[|path| - 1], y)
    decreases |path|
  {
    if |path| >= 2 {
      CrossingsTelescope(path[..|path| - 1], y);
    }
  }

  // A closed ring crosses every horizontal line an even number of times.
  lemma ClosedCrossesEvenly(ring: Ring, y: real)
    requires ring != []
    ensures !CrossParity(ring + [ring[0]], y)
  {
    CrossingsTelescope(ring + [ring[0]], y);
  }

  predicate OutsideBox(path: seq<Pt>, at: Pt) {
    || (forall i :: 0 <= i < |path| ==> at.x < path[i].x)
    || (forall i :: 0 <= i < |path| ==> path[i].x <= at.x)
    || (forall i :: 0 <= i < |path| ==> at.y < path[i].y)
    || (forall i :: 0 <= i < |path| ==> path[i].y <= at.y)
  }

  lemma {:induction false} HitLeftOfBoth(i: Pt, j: Pt, at: Pt)
    requires at.x < i.x && at.x < j.x
    ensures Hit(i, j, at) == Straddles(i, j, at.y)
  {
    if i.y <= at.y < j.y {
      HitUp(i, j, at);
      LeftIsPositive(i, j, at);
    } else if j.y <= at.y < i.y {
      HitDown(i, j, at);
      LeftIsPositive(j, i, at);
      CrossFlips(i, j, at);
    }
  }

  lemma {:induction false} LeftIsPositive(i: Pt, j: Pt, at: Pt)
    requires i.y <= at.y < j.y && at.x < i.x && at.x < j.x
    ensures Cross(i, j, at) > 0.0
  {
    var u, v, p, q := j.x - at.x, i.x - at.x, at.y - i.y, j.y - at.y;
    assert Cross(i, j, at) == (u - v) * p - (p + q) * (-v) == u * p + v * q;
    assert u * p >= 0.0 && v * q > 0.0;
  }

  lemma {:induction false} HitRightOfBoth(i: Pt, j: Pt, at: Pt)
    requires i.x <= at.x && j.x <= at.x
    ensures !Hit(i, j, at)
  {
    if i.y <= at.y < j.y {
      HitUp(i, j, at);
      RightIsNotPositive(i, j, at);
    } else if j.y <= at.y < i.y {
      HitDown(i, j, at);
      RightIsNotPositive(j, i, at);
      CrossFlips(i, j, at);
    }
  }

  lemma {:induction false} RightIsNotPositive(i: Pt, j: Pt, at: Pt)
    requires i.y <= at.y < j.y && i.x <= at.x && j.x <= at.x
    ensures Cross(i, j, at) <= 0.0
  {
    var u, v, p, q := at.x - j.x, at.x - i.x, at.y - i.y, j.y - at.y;
    assert Cross(i, j, at) == (v - u) * p - (p + q) * v == -(u * p) - v * q;
    assert u * p >= 0.0 && v * q >= 0.0;
  }

  lemma {:induction false} ParityOutside(path: seq<Pt>, at: Pt)
    requires OutsideBox(path, at)
    ensures PathParity(path, at) ==
            ((forall i :: 0 <= i < |path| ==> at.x < path[i].x) && CrossParity(path, at.y))
    decreases |path|
  {
    var n := |path|;
    if n >= 2 {
      var init := path[..n - 1];
      assert forall i :: 0 <= i < n - 1 ==> init[i] == path[i];
      ParityOutside(init, at);
      var i, j := path[n - 1], path[n - 2];
      if forall k :: 0 <= k < n ==> at.x < path[k].x {
        HitLeftOfBoth(i, j, at);
      } else if forall k :: 0 <= k < n ==> path[k].x <= at.x {
        HitRightOfBoth(i, j, at);
        assert path[0].x <= at.x;
      } else {
        assert !Hit(i, j, at);
        NoStraddle(path, at.y);
        NoStraddle(init, at.y);
      }
    }
  }

  lemma {:induction false} NoStraddle(path: seq<Pt>, y: real)
    requires (forall i :: 0 <= i < |path| ==> y < path[i].y) || (forall i :: 0 <= i < |path| ==> path[i].y <= y)
    ensures !CrossParity(path, y)
  {
    if path != [] {
      CrossingsTelescope(path, y);
    }
  }

  lemma {:induction false} OutsideBoxIsOutside(ring: Ring, at: Pt)
    requires OutsideBox(ring, at)
    ensures !Contains(ring, at)
  {
    if ring != [] {
      var closed := ring + [ring[0]];
      ContainsIsClosedPath(ring, at);
      assert forall i :: 0 <= i < |closed| ==> closed[i] == ring[if i < |ring| then i else 0];
      assert OutsideBox(closed, at);
      ParityOutside(closed, at);
      ClosedCrossesEvenly(ring, at.y);
    }
  }

  // ---- what one triangle contains, and a ring as a fan of triangles ----

  predicate CounterClockwise(p: Pt, q: Pt, r: Pt) {
    Cross(p, q, r) > 0.0
  }

  // The three oriented sub-areas of a triangle seen from a point balance their heights.
  lemma {:induction false} Barycentric(p: Pt, q: Pt, r: Pt, at: Pt)
    ensures Cross(p, q, at) * (r.y - at.y) + Cross(q, r, at) * (p.y - at.y) + Cross(r, p, at) * (q.y - at.y) == 0.0
    ensures Cross(p, q, at) + Cross(q, r, at) + Cross(r, p, at) == Cross(p, q, r)
  {
    var a, b, c := Pt(p.x - at.x, p.y - at.y), Pt(q.x - at.x, q.y - at.y), Pt(r.x - at.x, r.y - at.y);
    CrossAsProduct(p, q, at);
    CrossAsProduct(q, r, at);
    CrossAsProduct(r, p, at);
    assert (a.x * b.y - b.x * a.y) * c.y + (b.x * c.y - c.x * b.y) * a.y + (c.x * a.y - a.x * c.y) * b.y == 0.0 by {
      assert (a.x * b.y) * c.y == a.x * b.y * c.y;
      assert (b.x * a.y) * c.y == (b.x * c.y) * a.y;
      assert (c.x * b.y) * a.y == (c.x * a.y) * b.y;
      assert (a.x * c.y) * b.y == (a.x * b.y) * c.y;
    }
    assert q.x - p.x == b.x - a.x && r.y - p.y == c.y - a.y && q.y - p.y == b.y - a.y && r.x - p.x == c.x - a.x;
    assert Cross(p, q, r) == (b.x - a.x) * (c.y - a.y) - (b.y - a.y) * (c.x - a.x);
    assert (b.x - a.x) * (c.y - a.y) == b.x * c.y - b.x * a.y - a.x * c.y + a.x * a.y;
    assert (b.y - a.y) * (c.x - a.x) == b.y * c.x - b.y * a.x - a.y * c.x + a.y * a.x;
  }

  lemma CrossAsProduct(p: Pt, q: Pt, at: Pt)
    ensures Cross(p, q, at) == (p.x - at.x) * (q.y - at.y) - (q.x - at.x) * (p.y - at.y)
  {
    var a, b := Pt(p.x - at.x, p.y - at.y), Pt(q.x - at.x, q.y - at.y);
    assert Cross(p, q, at) == (b.x - a.x) * (-a.y) - (b.y - a.y) * (-a.x);
    assert (b.x - a.x) * (-a.y) == -(b.x * a.y) + a.x * a.y;
    assert (b.y - a.y) * (-a.x) == -(b.y * a.x) + a.y * a.x;
  }

  // Which edges of a triangle the ray crosses, decided by the sign of each oriented sub-area.
  lemma {:induction false} TriangleHits(p: Pt, q: Pt, r: Pt, at: Pt)
    ensures Contains([p, q, r], at) == Xor(Xor(Hit(p, q, at), Hit(q, r, at)), Hit(r, p, at))
  {
    PairParity(p, q, at);
    ParityAppend([p, q], r, at);
    assert [p, q, r] == [p, q] + [r];
    HitSymmetric(p, q, at);
    HitSymmetric(q, r, at);
    HitSymmetric(r, p, at);
  }

  lemma EdgeHit(i: Pt, j: Pt, at: Pt)
    ensures i.y <= at.y < j.y ==> (Hit(i, j, at) <==> Cross(i, j, at) > 0.0)
    ensures j.y <= at.y < i.y ==> (Hit(i, j, at) <==> Cross(i, j, at) < 0.0)
    ensures (i.y <= at.y && j.y <= at.y) || (at.y < i.y && at.y < j.y) ==> !Hit(i, j, at)
  {
    if i.y <= at.y < j.y {
      HitUp(i, j, at);
    } else if j.y <= at.y < i.y {
      HitDown(i, j, at);
    }
  }

  // Signs that a weighted sum of zero allows.
  lemma Balance(a: real, b: real, c: real, u: real, v: real, w: real)
    requires a * u + b * v + c * w == 0.0
    ensures a > 0.0 && b > 0.0 && c > 0.0 && u >= 0.0 && v >= 0.0 && w >= 0.0 ==> u == v == w == 0.0
    ensures a > 0.0 && b > 0.0 && c > 0.0 && u <= 0.0 && v <= 0.0 && w <= 0.0 ==> u == v == w == 0.0
    ensures u <= 0.0 && v > 0.0 && w > 0.0 && b >= 0.0 && c > 0.0 ==> a > 0.0
    ensures u <= 0.0 && v > 0.0 && w > 0.0 && b < 0.0 && c <= 0.0 ==> a < 0.0
    ensures u > 0.0 && v <= 0.0 && w <= 0.0 && b >= 0.0 && c >= 0.0 ==> a >= 0.0
    ensures u > 0.0 && v <= 0.0 && w <= 0.0 && b <= 0.0 && c <= 0.0 ==> a <= 0.0
  {
    assert a * u + b * v + c * w == 0.0;
  }

  predicate StrictlyInside(p: Pt, q: Pt, r: Pt, at: Pt) {
    Cross(p, q, at) > 0.0 && Cross(q, r, at) > 0.0 && Cross(r, p, at) > 0.0
  }

  predicate StrictlyOutside(p: Pt, q: Pt, r: Pt, at: Pt) {
    Cross(p, q, at) < 0.0 || Cross(q, r, at) < 0.0 || Cross(r, p, at) < 0.0
  }

  // The ray's line separates p from q and r.
  lemma {:induction false} ApexTriangle(p: Pt, q: Pt, r: Pt, at: Pt)
    requires CounterClockwise(p, q, r)
    requires Straddles(p, q, at.y) && Straddles(p, r, at.y)
    ensures StrictlyInside(p, q, r, at) ==> Contains([p, q, r], at)
    ensures StrictlyOutside(p, q, r, at) ==> !Contains([p, q, r], at)
  {
    TriangleHits(p, q, r, at);
    EdgeHit(p, q, at);
    EdgeHit(q, r, at);
    EdgeHit(r, p, at);
    Barycentric(p, q, r, at);
    Balance(Cross(q, r, at), Cross(r, p, at), Cross(p, q, at), p.y - at.y, q.y - at.y, r.y - at.y);
  }

  lemma CrossTurns(p: Pt, q: Pt, r: Pt)
    ensures Cross(q, r, p) == Cross(p, q, r)
  {
    Barycentric(p, q, r, p);
    assert Cross(p, q, p) == 0.0 && Cross(r, p, p) == 0.0 by {
      CrossFlips(r, p, p);
    }
  }

  // Even-odd fill of a counter-clockwise triangle is its interior; only its boundary is left to the convention.
  lemma {:induction false} TriangleFill(p: Pt, q: Pt, r: Pt, at: Pt)
    requires CounterClockwise(p, q, r)
    ensures StrictlyInside(p, q, r, at) ==> Contains([p, q, r], at)
    ensures StrictlyOutside(p, q, r, at) ==> !Contains([p, q, r], at)
  {
    CrossTurns(p, q, r);
    CrossTurns(q, r, p);
    if Straddles(p, q, at.y) && Straddles(p, r, at.y) {
      ApexTriangle(p, q, r, at);
    } else if Straddles(q, r, at.y) && Straddles(q, p, at.y) {
      ApexTriangle(q, r, p, at);
      RotationInvariant([p, q, r], 1, at);
      assert [p, q, r][1..] + [p, q, r][..1] == [q, r, p];
    } else if Straddles(r, p, at.y) && Straddles(r, q, at.y) {
      ApexTriangle(r, p, q, at);
      RotationInvariant([p, q, r], 2, at);
      assert [p, q, r][2..] + [p, q, r][..2] == [r, p, q];
    } else {
      TriangleHits(p, q, r, at);
      Barycentric(p, q, r, at);
      Balance(Cross(q, r, at), Cross(r, p, at), Cross(p, q, at), p.y - at.y, q.y - at.y, r.y - at.y);
    }
  }

  // Parity over the triangles (ring[0], ring[k], ring[k+1]).
  predicate FanParity(ring: Ring, at: Pt)
    decreases |ring|
  {
    var m := |ring|;
    if m < 3 then false
    else Xor(FanParity(ring[..m - 1], at), Contains([ring[0], ring[m - 2], ring[m - 1]], at))
  }

  // A ring of any shape contains a point iff an odd number of its fan triangles do.
  lemma {:induction false} FanDecomposition(ring: Ring, at: Pt)
    ensures Contains(ring, at) == FanParity(ring, at)
    decreases |ring|
  {
    var m := |ring|;
    if m == 1 {
      assert ring == [ring[0]];
    } else if m == 2 {
      HitSymmetric(ring[0], ring[1], at);
      assert !PathParity(ring[..1], at);
      assert PathParity(ring, at) == Hit(ring[1], ring[0], at);
    } else if m > 2 {
      FanDecomposition(ring[..m - 1], at);
      ChordSplit(ring, 0, m - 2, at);
      assert PartA(ring, 0, m - 2) == ring[..m - 1];
      var tri := [ring[0], ring[m - 2], ring[m - 1]];
      assert PartB(ring, 0, m - 2) == [ring[m - 2], ring[m - 1], ring[0]] == tri[1..] + tri[..1];
      RotationInvariant(tri, 1, at);
    }
  }

  // ---- chords that end inside an edge ----

  predicate OnSegment(i: Pt, j: Pt, mid: Pt, s: real) {
    && 0.0 <= s <= 1.0
    && mid.x == i.x + s * (j.x - i.x)
    && mid.y == i.y + s * (j.y - i.y)
  }

  lemma {:induction false} CrossOnSegment(i: Pt, j: Pt, mid: Pt, s: real, at: Pt)
    requires OnSegment(i, j, mid, s)
    ensures Cross(i, mid, at) == s * Cross(i, j, at)
    ensures Cross(mid, j, at) == (1.0 - s) * Cross(i, j, at)
  {
    var dx, dy, ax, ay := j.x - i.x, j.y - i.y, at.x - i.x, at.y - i.y;
    assert Cross(i, mid, at) == (s * dx) * ay - (s * dy) * ax;
    assert (s * dx) * ay == s * (dx * ay) && (s * dy) * ax == s * (dy * ax);
    assert Cross(i, j, at) == dx * ay - dy * ax;
    assert s * (dx * ay - dy * ax) == s * (dx * ay) - s * (dy * ax);
    assert j.x - mid.x == (1.0 - s) * dx && j.y - mid.y == (1.0 - s) * dy;
    assert Cross(mid, j, at) == ((1.0 - s) * dx) * (ay - s * dy) - ((1.0 - s) * dy) * (ax - s * dx);
    assert ((1.0 - s) * dx) * (ay - s * dy) == (1.0 - s) * (dx * ay) - (1.0 - s) * (s * (dx * dy)) by {
      assert dx * (s * dy) == s * (dx * dy);
      assert ((1.0 - s) * dx) * (ay - s * dy) == (1.0 - s) * (dx * (ay - s * dy));
    }
    assert ((1.0 - s) * dy) * (ax - s * dx) == (1.0 - s) * (dy * ax) - (1.0 - s) * (s * (dx * dy)) by {
      assert dy * (s * dx) == s * (dx * dy);
      assert ((1.0 - s) * dy) * (ax - s * dx) == (1.0 - s) * (dy * (ax - s * dx));
    }
    assert (1.0 - s) * (dx * ay - dy * ax) == (1.0 - s) * (dx * ay) - (1.0 - s) * (dy * ax);
  }

  lemma SignScales(s: real, c: real)
    requires s > 0.0
    ensures s * c > 0.0 <==> c > 0.0
    ensures s * c < 0.0 <==> c < 0.0
  {
  }

  lemma {:induction false} EdgeSubdivides(i: Pt, j: Pt, mid: Pt, s: real, at: Pt)
    requires OnSegment(i, j, mid, s)
    ensures Hit(i, j, at) == Xor(Hit(i, mid, at), Hit(mid, j, at))
  {
    EdgeHit(i, j, at);
    EdgeHit(i, mid, at);
    EdgeHit(mid, j, at);
    CrossOnSegment(i, j, mid, s, at);
    if s > 0.0 {
      SignScales(s, Cross(i, j, at));
    }
    if s < 1.0 {
      SignScales(1.0 - s, Cross(i, j, at));
    }
    Between(i.y, j.y, s);
  }

  lemma Between(a: real, b: real, s: real)
    requires 0.0 <= s <= 1.0
    ensures a <= b ==> a <= a + s * (b - a) <= b
    ensures a >= b ==> a >= a + s * (b - a) >= b
  {
    assert s * (b - a) + (1.0 - s) * (b - a) == b - a;
  }

  // A new vertex on an edge changes nothing, so ChordSplit covers every chord of the ring.
  lemma {:induction false} VertexOnEdge(ring: Ring, k: nat, mid: Pt, s: real, at: Pt)
    requires 0 < k <= |ring|
    requires OnSegment(ring[k - 1], ring[if k < |ring| then k else 0], mid, s)
    ensures Contains(ring[..k] + [mid] + ring[k..], at) == Contains(ring, at)
  {
    var run, next := ring[..k], ring[if k < |ring| then k else 0];
    ParityAppend(run, next, at);
    ParityAppend(run, mid, at);
    ParityAppend(run + [mid], next, at);
    EdgeSubdivides(ring[k - 1], next, mid, s, at);
    HitSymmetric(ring[k - 1], next, at);
    HitSymmetric(ring[k - 1], mid, at);
    HitSymmetric(mid, next, at);
    if k == |ring| {
      ContainsIsClosedPath(ring, at);
      ContainsIsClosedPath(run + [mid], at);
      assert ring[..k] + [mid] + ring[k..] == run + [mid] && ring == run;
    } else {
      ContainsTwoRuns(run, ring[k..], at);
      ContainsTwoRuns(run + [mid], ring[k..], at);
      assert ring == run + ring[k..];
    }
  }

  lemma PairParity(p: Pt, q: Pt, at: Pt)
    ensures PathParity([p, q], at) == Hit(p, q, at)
  {
    assert !PathParity([p, q][..1], at);
    HitSymmetric(p, q, at);
  }
}
