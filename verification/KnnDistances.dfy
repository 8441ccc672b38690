/** Neighbours by distance. */
module KnnDistances {
  // scripts/diag/spatial.py: what knn_deterministic returns, in terms of the distances alone.

  import opened Arith
  import opened Indices
  import opened Numpy
  import opened Knn

  // Point i may come before point j: it is no farther by more than `unit`, and points at one distance, or
  // nearest to one multiple of `unit`, come in the order of their indices. The query's own point comes first.
  ghost predicate Precedes(row: seq<real>, me: int, unit: real, i: nat, j: nat)
    requires i < |row| && j < |row|
  {
    && j != me
    && row[i] <= row[j] + unit
    && (i != me && row[i] == row[j] ==> i < j)
    && (i != me ==> forall m: int :: AtMultiple(unit, m, row[i]) && AtMultiple(unit, m, row[j]) ==> i < j)
  }

  predicate AtMultiple(unit: real, m: int, x: real) {
    -0.5 * unit < x - m as real * unit < 0.5 * unit
  }

  // The points kept are in that order, and all of them come before all points left out.
  ghost predicate NearestFirst(row: seq<real>, me: int, unit: real, idx: seq<nat>) {
    && (forall a :: 0 <= a < |idx| ==> idx[a] < |row|)
    && (forall a, b :: 0 <= a < b < |idx| ==> Precedes(row, me, unit, idx[a], idx[b]))
    && (forall a, q :: 0 <= a < |idx| && 0 <= q < |row| && q !in idx ==> Precedes(row, me, unit, idx[a], q))
  }

  // ---- from keys to distances ----

  lemma Scaled(x: real, q: real, unit: real, m: int)
    requires unit > 0.0 && x == q * unit
    ensures -0.5 * unit <= x - Round(q) as real * unit <= 0.5 * unit
    ensures AtMultiple(unit, m, x) ==> Round(q) == m
  {
    RoundIsNearest(q, m);
    ScaledBy(x, q, unit, Round(q) as real);
    ScaledBy(x, q, unit, m as real);
  }

  lemma ScaledBy(x: real, q: real, unit: real, n: real)
    requires unit > 0.0 && x == q * unit
    ensures -0.5 <= q - n <= 0.5 <==> -0.5 * unit <= x - n * unit <= 0.5 * unit
    ensures -0.5 < q - n < 0.5 <==> -0.5 * unit < x - n * unit < 0.5 * unit
  {
    DifferenceScaled(q - n, q, n, unit);
    BoundsScaled(q - n, x - n * unit, -0.5, 0.5, unit);
  }

  lemma DifferenceScaled(e: real, q: real, n: real, unit: real)
    requires e == q - n
    ensures e * unit == q * unit - n * unit
  {
  }

  lemma RoundedOrder(x: real, y: real, unit: real)
    requires unit > 0.0 && Round(x / unit) <= Round(y / unit)
    ensures x <= y + unit
    ensures forall m: int :: AtMultiple(unit, m, x) && AtMultiple(unit, m, y) ==> Round(x / unit) == Round(y / unit)
  {
    var a, b := x / unit, y / unit;
    DivTimes(x, unit);
    DivTimes(y, unit);
    Scaled(x, a, unit, 0);
    Scaled(y, b, unit, 0);
    UnitApart(x, y, unit, Round(a) as real, Round(b) as real);
    forall m: int | AtMultiple(unit, m, x) && AtMultiple(unit, m, y)
      ensures Round(a) == Round(b)
    {
      Scaled(x, a, unit, m);
      Scaled(y, b, unit, m);
    }
  }

  lemma UnitApart(x: real, y: real, unit: real, a: real, b: real)
    requires unit > 0.0 && a <= b && x - a * unit <= 0.5 * unit && -0.5 * unit <= y - b * unit
    ensures x <= y + unit
  {
    MulOrder(a, b, unit);
  }

  lemma KeysDecide(p: Problem, r: nat, tol: real, i: nat, j: nat)
    requires p.Valid() && r < |p.dist| && tol > 0.0 && i < p.n && j < p.n && Before(Keys(p, r, tol), i, j)
    ensures Precedes(p.dist[r], Self(p, r), tol, i, j)
  {
    var row, me := p.dist[r], Self(p, r);
    KeysFollow(p, r, tol);
    assert Keys(p, r, tol)[i] == Key(p, r, tol, i) && Keys(p, r, tol)[j] == Key(p, r, tol, j);
    if i != me {
      RoundedOrder(row[i], row[j], tol);
    }
  }

  lemma RowDecided(p: Problem, r: nat, tol: real, idx: seq<nat>)
    requires p.Valid() && r < |p.dist| && tol > 0.0 && IsFirst(Keys(p, r, tol), idx)
    ensures NearestFirst(p.dist[r], Self(p, r), tol, idx)
  {
    var row, me, keys := p.dist[r], Self(p, r), Keys(p, r, tol);
    forall a, b | 0 <= a < b < |idx|
      ensures Precedes(row, me, tol, idx[a], idx[b])
    {
      assert Before(keys, idx[a], idx[b]);
      KeysDecide(p, r, tol, idx[a], idx[b]);
    }
    forall a, q | 0 <= a < |idx| && 0 <= q < |row| && q !in idx
      ensures Precedes(row, me, tol, idx[a], q)
    {
      assert Before(keys, idx[a], q);
      KeysDecide(p, r, tol, idx[a], q);
    }
  }

  // Where every kept distance is zero no slack is needed.
  lemma NoSlack(row: seq<real>, me: int, tol: real, idx: seq<nat>)
    requires NearestFirst(row, me, tol, idx)
    requires forall j :: 0 <= j < |row| ==> row[j] >= 0.0
    requires forall a :: 0 <= a < |idx| ==> row[idx[a]] == 0.0
    ensures NearestFirst(row, me, 0.0, idx)
  {
    forall a, q | 0 <= a < |idx| && 0 <= q < |row| && Precedes(row, me, tol, idx[a], q)
      ensures Precedes(row, me, 0.0, idx[a], q)
    {
      assert forall m: int :: !AtMultiple(0.0, m, row[q]);
    }
  }

  // ---- the scale ----

  lemma {:induction false} LargestAttained(m: seq<real>)
    ensures forall r :: 0 <= r < |m| ==> m[r] <= Largest(m)
    ensures Largest(m) > 0.0 ==> exists r :: 0 <= r < |m| && m[r] == Largest(m)
  {
    if m != [] {
      LargestAttained(m[..|m| - 1]);
      assert Largest(m) == m[|m| - 1] || Largest(m) == Largest(m[..|m| - 1]);
    }
  }

  // The largest distance in the windows is some distance of the problem.
  lemma ScaleIsADistance(p: Problem, win: Windows, w: nat, m: seq<real>)
    requires p.Valid() && Fits(p, win, w) && w >= 1 && m == RowMaxima(p, win, w) && Largest(m) > 0.0
    ensures exists r, j :: 0 <= r < |p.dist| && 0 <= j < p.n && p.dist[r][j] == Largest(m)
  {
    LargestAttained(m);
    var r :| 0 <= r < |m| && m[r] == Largest(m);
    var j := FarthestKept(p, win, w, r);
    assert p.dist[r][j] == Largest(m);
  }

  lemma FarthestKept(p: Problem, win: Windows, w: nat, r: nat) returns (j: nat)
    requires p.Valid() && Fits(p, win, w) && w >= 1 && r < |win|
    ensures j < p.n && p.dist[r][j] == MaxOver(p.dist[r], win[r])
  {
    var row, s := p.dist[r], win[r];
    assert Nearest(row, s, w);
    var a :| 0 <= a < |s| && row[s[a]] == MaxOver(row, s);
    j := s[a];
  }

  lemma ScaleBounds(p: Problem, win: Windows, w: nat, m: seq<real>, r: nat)
    requires p.Valid() && Fits(p, win, w) && m == RowMaxima(p, win, w) && r < |win|
    ensures forall j :: j in win[r] ==> p.dist[r][j] <= Largest(m)
  {
    LargestAttained(m);
    assert m[r] == MaxOver(p.dist[r], win[r]);
  }

  // Everything kept lies in the window the loop stopped at.
  lemma {:induction false} KeptInWindow(p: Problem, win: Windows, w: nat, r: nat, idx: seq<nat>, c: nat)
    requires p.Valid() && Fits(p, win, w) && p.k <= w <= p.n && (w == p.n || Done(p, win, w))
    requires r < |win| && IsFirst(AllKeys(p, Tol(p, win, w))[r], idx) && |idx| == p.k && c < p.k
    ensures idx[c] in win[r]
  {
    var tol := Tol(p, win, w);
    var keys := Keys(p, r, tol);
    KeysFollow(p, r, tol);
    CompleteIsFirst(keys, p.dist[r], Self(p, r), win[r], p.k);
    FirstIsUnique(keys, idx, Sorted(keys, win[r])[..p.k]);
    SortedKeeps(keys, win[r]);
    assert idx[c] == Sorted(keys, win[r])[c];
  }

  // The loop stops at the whole set or at a window that is done.
  lemma {:induction false} FinalStops(n: nat, stops: set<nat>, w: nat)
    requires 1 <= w <= n
    ensures Final(n, stops, w) == n || Final(n, stops, w) in stops
    decreases n - w
  {
    if w != n && w !in stops {
      FinalStops(n, stops, AtMost(n, w * 2));
    }
  }

  lemma FinalIsDone(p: Problem, tree: Tree, w: nat)
    requires p.Valid() && Answers(p, tree) && w == FinalWindow(p, tree)
    ensures w == p.n || Done(p, Answer(p, tree, w), w)
  {
    var stops := Stops(p, tree);
    StoppedAt(p, tree, stops, w);
    if w != p.n {
      StopsWhenDone(p, tree, w);
    }
  }

  lemma StoppedAt(p: Problem, tree: Tree, stops: set<nat>, w: nat)
    requires p.Valid() && Answers(p, tree) && stops == Stops(p, tree)
    requires w == Final(p.n, stops, AtMost(p.n, p.k + 16))
    ensures w == p.n || (p.k + 16 <= w < p.n && w in Stops(p, tree))
  {
    FinalStops(p.n, stops, AtMost(p.n, p.k + 16));
  }

  /**
   What is returned are the nearest points in order of distance, to within a billionth of `scale`: a
   distance of the problem no smaller than any returned, or zero when every returned distance is zero.
   */
  lemma {:induction false} NearestAreReturned(p: Problem, tree: Tree, d: seq<seq<real>>, idx: seq<seq<nat>>) returns (scale: real)
    requires p.Valid() && Answers(p, tree) && ResultIs(p, FinalTol(p, tree), d, idx)
    ensures scale == 0.0 || exists r, j :: 0 <= r < |p.dist| && 0 <= j < p.n && p.dist[r][j] == scale
    ensures |d| == |idx| == |p.dist|
    ensures forall r :: 0 <= r < |p.dist| ==> NearestFirst(p.dist[r], if p.selfFirst then r else -1, scale * 0.000000001, idx[r])
    ensures forall r :: 0 <= r < |p.dist| ==> |d[r]| == |idx[r]| == p.k
    ensures forall r, c :: 0 <= r < |p.dist| && 0 <= c < p.k ==> d[r][c] == p.dist[r][idx[r][c]] <= scale
  {
    var w := FinalWindow(p, tree);
    var win := Answer(p, tree, w);
    var tol := FinalTol(p, tree);
    FinalIsDone(p, tree, w);
    Stopped(p, tree, w, win);
    var m := RowMaxima(p, win, w);
    scale := Largest(m);
    if scale > 0.0 {
      ScaleIsADistance(p, win, w, m);
    }
    AllReturned(p, win, w, tol, scale, d, idx);
  }

  lemma AllReturned(p: Problem, win: Windows, w: nat, tol: real, scale: real, d: seq<seq<real>>, idx: seq<seq<nat>>)
    requires p.Valid() && Fits(p, win, w) && p.k <= w <= p.n && (w == p.n || Done(p, win, w))
    requires tol == Tol(p, win, w) && (if scale > 0.0 then tol == scale * 0.000000001 else scale == 0.0)
    requires scale == Largest(RowMaxima(p, win, w))
    requires ResultIs(p, tol, d, idx)
    ensures forall r :: 0 <= r < |p.dist| ==> NearestFirst(p.dist[r], if p.selfFirst then r else -1, scale * 0.000000001, idx[r])
    ensures forall r :: 0 <= r < |p.dist| ==> |d[r]| == |idx[r]| == p.k
    ensures forall r, c :: 0 <= r < |p.dist| && 0 <= c < p.k ==> d[r][c] == p.dist[r][idx[r][c]] <= scale
  {
    forall r | 0 <= r < |p.dist|
      ensures NearestFirst(p.dist[r], Self(p, r), scale * 0.000000001, idx[r]) && |d[r]| == |idx[r]| == p.k
      ensures forall c :: 0 <= c < p.k ==> d[r][c] == p.dist[r][idx[r][c]] <= scale
    {
      ScaleBounds(p, win, w, RowMaxima(p, win, w), r);
      KeptBelow(p, win, w, tol, scale, r, idx[r]);
      RowReturned(p, r, tol, scale, idx[r]);
    }
  }

  lemma KeptBelow(p: Problem, win: Windows, w: nat, tol: real, scale: real, r: nat, idx: seq<nat>)
    requires p.Valid() && Fits(p, win, w) && p.k <= w <= p.n && (w == p.n || Done(p, win, w)) && r < |win|
    requires tol == Tol(p, win, w) && IsFirst(AllKeys(p, tol)[r], idx) && |idx| == p.k
    requires forall j :: j in win[r] ==> p.dist[r][j] <= scale
    ensures forall c :: 0 <= c < p.k ==> p.dist[r][idx[c]] <= scale
  {
    forall c | 0 <= c < p.k
      ensures idx[c] in win[r]
    {
      KeptInWindow(p, win, w, r, idx, c);
    }
  }

  lemma RowReturned(p: Problem, r: nat, tol: real, scale: real, idx: seq<nat>)
    requires p.Valid() && r < |p.dist| && tol > 0.0 && IsFirst(Keys(p, r, tol), idx)
    requires if scale > 0.0 then tol == scale * 0.000000001 else scale == 0.0
    requires forall c :: 0 <= c < |idx| ==> p.dist[r][idx[c]] <= scale
    ensures NearestFirst(p.dist[r], Self(p, r), scale * 0.000000001, idx)
  {
    RowDecided(p, r, tol, idx);
    if scale <= 0.0 {
      NoSlack(p.dist[r], Self(p, r), tol, idx);
    }
  }
}
