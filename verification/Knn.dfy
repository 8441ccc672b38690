/** scripts/diag/spatial.py: knn_deterministic. */
module Knn {
  // k nearest neighbours ordered by (rounded distance, index), computed from a tree that may keep any of
  // the points tied at the edge of its window. Row r of `dist` holds the exact distances from query r to
  // each of the n points.

  import opened Arith
  import opened Indices
  import opened Numpy

  // k is the count asked for, cut to the number of points.
  datatype Problem = Problem(dist: seq<seq<real>>, n: nat, k: nat, selfFirst: bool) {
    ghost predicate Valid() {
      && n >= 1 && k <= n
      && (forall r :: 0 <= r < |dist| ==> |dist[r]| == n)
      && (forall r, j :: 0 <= r < |dist| && 0 <= j < n ==> dist[r][j] >= 0.0)
      && (selfFirst ==> |dist| == n && forall r :: 0 <= r < n ==> dist[r][r] == 0.0)
    }
  }

  // Some w nearest points: nothing left out is nearer than anything kept.
  ghost predicate Nearest(row: seq<real>, s: seq<nat>, w: nat) {
    && |s| == w
    && Distinct(s)
    && (forall a :: 0 <= a < w ==> s[a] < |row|)
    && (forall a, p :: 0 <= a < w && 0 <= p < |row| && p !in s ==> row[s[a]] <= row[p])
  }

  type Tree = (nat, nat) -> seq<nat>

  // tree.query(query, k=w), whichever tied points the traversal keeps.
  ghost predicate Answers(p: Problem, tree: Tree)
    requires p.Valid()
  {
    forall r: nat, w: nat :: r < |p.dist| && w <= p.n ==> Nearest(p.dist[r], tree(r, w), w)
  }

  // ---- rounded distances ----

  function MaxOver(row: seq<real>, s: seq<nat>): (m: real)
    requires forall a :: 0 <= a < |s| ==> s[a] < |row| && row[s[a]] >= 0.0
    ensures m >= 0.0
    ensures forall a :: 0 <= a < |s| ==> row[s[a]] <= m
    ensures s == [] ==> m == 0.0
    ensures s != [] ==> exists a :: 0 <= a < |s| && row[s[a]] == m
  {
    if s == [] then 0.0
    else
      var rest := MaxOver(row, s[1..]);
      if row[s[0]] >= rest then row[s[0]]
      else
        assert exists a :: 0 <= a < |s[1..]| && row[s[1..][a]] == rest;
        rest
  }

  // One answer of the tree: a window for every row.
  type Windows = seq<seq<nat>>

  ghost predicate Fits(p: Problem, win: Windows, w: nat)
    requires p.Valid()
  {
    |win| == |p.dist| && forall r :: 0 <= r < |win| ==> Nearest(p.dist[r], win[r], w)
  }

  function Answer(p: Problem, tree: Tree, w: nat): (win: Windows)
    requires p.Valid() && Answers(p, tree) && w <= p.n
    ensures Fits(p, win, w)
  {
    seq(|p.dist|, r requires 0 <= r < |p.dist| => tree(r, w))
  }

  // The largest distance in each row's window.
  function RowMaxima(p: Problem, win: Windows, w: nat): (m: seq<real>)
    requires p.Valid() && Fits(p, win, w)
    ensures |m| == |win|
    ensures forall r :: 0 <= r < |win| ==> m[r] == MaxOver(p.dist[r], win[r])
  {
    seq(|win|, r requires 0 <= r < |win| => MaxOver(p.dist[r], win[r]))
  }

  function Largest(m: seq<real>): real {
    if m == [] then 0.0 else Max(Largest(m[..|m| - 1]), m[|m| - 1])
  }

  const TIE_REL_TOL := 0.000000001

  function Tol(p: Problem, win: Windows, w: nat): (t: real)
    requires p.Valid() && Fits(p, win, w)
    ensures t > 0.0
  {
    var scale := Largest(RowMaxima(p, win, w));
    if scale > 0.0 then scale * TIE_REL_TOL else 1.0
  }

  // The ordering key of point j for query r: its distance in units of tol, itself first if asked.
  function Key(p: Problem, r: nat, tol: real, j: nat): int
    requires p.Valid() && r < |p.dist| && j < p.n && tol > 0.0
  {
    if p.selfFirst && j == r then -1 else Round(p.dist[r][j] / tol)
  }

  lemma KeyMonotone(p: Problem, r: nat, tol: real, i: nat, j: nat)
    requires p.Valid() && r < |p.dist| && i < p.n && j < p.n && tol > 0.0
    requires p.dist[r][i] <= p.dist[r][j] && !(p.selfFirst && j == r)
    ensures Key(p, r, tol, i) <= Key(p, r, tol, j)
    ensures Key(p, r, tol, j) >= 0
  {
    var a, b := p.dist[r][i] / tol, p.dist[r][j] / tol;
    DivTimes(p.dist[r][i], tol);
    DivTimes(p.dist[r][j], tol);
    MulOrder(a, b, tol);
    MulOrder(0.0, b, tol);
    RoundMonotone(a, b);
    RoundMonotone(0.0, b);
  }

  function Keys(p: Problem, r: nat, tol: real): (keys: seq<int>)
    requires p.Valid() && r < |p.dist| && tol > 0.0
    ensures |keys| == p.n
  {
    seq(p.n, j requires 0 <= j < p.n => Key(p, r, tol, j))
  }

  function AllKeys(p: Problem, tol: real): (keys: seq<seq<int>>)
    requires p.Valid() && tol > 0.0
    ensures |keys| == |p.dist| && forall r :: 0 <= r < |keys| ==> |keys[r]| == p.n
    ensures forall r :: 0 <= r < |keys| ==> keys[r] == Keys(p, r, tol)
  {
    seq(|p.dist|, r requires 0 <= r < |p.dist| => Keys(p, r, tol))
  }

  // ---- (rounded distance, index), as np.lexsort((idx, key)) orders ----

  predicate InRange(keys: seq<int>, s: seq<nat>) {
    forall a :: 0 <= a < |s| ==> s[a] < |keys|
  }

  predicate Before(keys: seq<int>, i: nat, j: nat)
    requires i < |keys| && j < |keys|
  {
    keys[i] < keys[j] || (keys[i] == keys[j] && i < j)
  }

  predicate Ordered(keys: seq<int>, s: seq<nat>)
    requires InRange(keys, s)
  {
    forall a, b :: 0 <= a < b < |s| ==> Before(keys, s[a], s[b])
  }

  // The first |s| points of the whole set.
  ghost predicate IsFirst(keys: seq<int>, s: seq<nat>) {
    && InRange(keys, s)
    && Ordered(keys, s)
    && forall a, q :: 0 <= a < |s| && 0 <= q < |keys| && q !in s ==> Before(keys, s[a], q)
  }

  // There is only one such list of a given length.
  lemma {:induction false} FirstIsUnique(keys: seq<int>, s: seq<nat>, t: seq<nat>)
    requires IsFirst(keys, s) && IsFirst(keys, t) && |s| == |t|
    ensures s == t
  {
    forall c | 0 <= c < |s|
      ensures s[c] == t[c]
    {
      FirstAgreesAt(keys, s, t, c);
    }
  }

  lemma {:induction false} FirstAgreesAt(keys: seq<int>, s: seq<nat>, t: seq<nat>, c: nat)
    requires IsFirst(keys, s) && IsFirst(keys, t) && c < |s| == |t|
    ensures s[c] == t[c]
    decreases c
  {
    forall a | 0 <= a < c
      ensures s[a] == t[a]
    {
      FirstAgreesAt(keys, s, t, a);
    }
    MissingIsLate(keys, s, t, c);
    MissingIsLate(keys, t, s, c);
  }

  // s[c] cannot precede t[c]: the places of t before c are taken, and from c on everything comes later.
  lemma {:induction false} MissingIsLate(keys: seq<int>, s: seq<nat>, t: seq<nat>, c: nat)
    requires IsFirst(keys, s) && IsFirst(keys, t) && c < |s| == |t|
    requires forall a :: 0 <= a < c ==> s[a] == t[a]
    ensures !Before(keys, s[c], t[c])
  {
    assert forall a :: 0 <= a < c ==> Before(keys, s[a], s[c]) && t[a] != s[c];
    assert forall a :: c < a < |t| ==> Before(keys, t[c], t[a]);
    assert s[c] !in t ==> Before(keys, t[c], s[c]);
  }

  // ---- sorting a window ----

  function Insert(keys: seq<int>, x: nat, s: seq<nat>): (t: seq<nat>)
    requires x < |keys| && InRange(keys, s)
    ensures |t| == |s| + 1 && InRange(keys, t)
    ensures forall y :: y in t <==> y == x || y in s
  {
    if s == [] then [x]
    else if Before(keys, x, s[0]) then [x] + s
    else [s[0]] + Insert(keys, x, s[1..])
  }

  lemma {:induction false} InsertOrders(keys: seq<int>, x: nat, s: seq<nat>)
    requires x < |keys| && InRange(keys, s) && Ordered(keys, s) && x !in s
    ensures Ordered(keys, Insert(keys, x, s))
  {
    if s != [] && !Before(keys, x, s[0]) {
      var rest := Insert(keys, x, s[1..]);
      InsertOrders(keys, x, s[1..]);
      forall b | 0 <= b < |rest|
        ensures Before(keys, s[0], rest[b])
      {
        assert rest[b] in rest;
        if rest[b] != x {
          var a :| 0 <= a < |s[1..]| && s[1..][a] == rest[b];
          assert s[a + 1] == rest[b];
        }
      }
    }
  }

  function Sorted(keys: seq<int>, s: seq<nat>): (t: seq<nat>)
    requires InRange(keys, s)
    ensures |t| == |s| && InRange(keys, t)
  {
    if s == [] then [] else Insert(keys, s[0], Sorted(keys, s[1..]))
  }

  lemma {:induction false} SortedKeeps(keys: seq<int>, s: seq<nat>)
    requires InRange(keys, s)
    ensures forall y :: y in Sorted(keys, s) <==> y in s
  {
    if s != [] {
      SortedKeeps(keys, s[1..]);
      assert forall y :: y in s <==> y == s[0] || y in s[1..];
    }
  }

  lemma {:induction false} SortedOrders(keys: seq<int>, s: seq<nat>)
    requires InRange(keys, s) && Distinct(s)
    ensures Ordered(keys, Sorted(keys, s))
    ensures forall y :: y in Sorted(keys, s) <==> y in s
  {
    SortedKeeps(keys, s);
    if s != [] {
      SortedKeeps(keys, s[1..]);
      SortedOrders(keys, s[1..]);
      InsertOrders(keys, s[0], Sorted(keys, s[1..]));
    }
  }

  // Keys grow with the distance, except that the query's own point `me`, if it has one, comes first.
  ghost predicate Follows(keys: seq<int>, row: seq<real>, me: int) {
    && |keys| == |row|
    && (forall j :: 0 <= j < |row| ==> row[j] >= 0.0)
    && (forall i, j :: 0 <= i < |row| && 0 <= j < |row| && j != me && row[i] <= row[j] ==> keys[i] <= keys[j])
    && (forall j :: 0 <= j < |row| && j != me ==> keys[j] >= 0)
    && (0 <= me < |row| ==> keys[me] == -1 && row[me] == 0.0)
  }

  function Self(p: Problem, r: nat): int {
    if p.selfFirst then r else -1
  }

  lemma KeysFollow(p: Problem, r: nat, tol: real)
    requires p.Valid() && r < |p.dist| && tol > 0.0
    ensures Follows(Keys(p, r, tol), p.dist[r], Self(p, r))
  {
    var keys, row, me := Keys(p, r, tol), p.dist[r], Self(p, r);
    forall i, j | 0 <= i < |row| && 0 <= j < |row| && j != me && row[i] <= row[j]
      ensures keys[i] <= keys[j] && keys[j] >= 0
    {
      KeyMonotone(p, r, tol, i, j);
    }
    assert forall j :: 0 <= j < |row| && j != me ==> row[j] <= row[j] && keys[j] >= 0;
  }

  // ---- when a window is wide enough ----

  // The last point of the sorted window is strictly farther than the k-th kept.
  predicate RowComplete(keys: seq<int>, window: seq<nat>, k: nat)
    requires InRange(keys, window)
  {
    var t := Sorted(keys, window);
    0 < k <= |t| && keys[t[|t| - 1]] > keys[t[k - 1]]
  }

  // Sorted, the window starts with the k first points of the whole set.
  lemma {:induction false} CompleteIsFirst(keys: seq<int>, row: seq<real>, me: int, window: seq<nat>, k: nat)
    requires Follows(keys, row, me) && Nearest(row, window, |window|) && k <= |window|
    requires |window| == |row| || RowComplete(keys, window, k)
    ensures IsFirst(keys, Sorted(keys, window)[..k])
  {
    SortedOrders(keys, window);
    FirstOfSorted(keys, row, me, window, Sorted(keys, window), k);
  }

  lemma {:induction false} FirstOfSorted(keys: seq<int>, row: seq<real>, me: int, window: seq<nat>, t: seq<nat>, k: nat)
    requires Follows(keys, row, me) && Nearest(row, window, |window|)
    requires InRange(keys, t) && Ordered(keys, t) && (forall x :: x in t <==> x in window)
    requires k <= |t| && (|window| == |row| || (k > 0 && keys[t[|t| - 1]] > keys[t[k - 1]]))
    ensures IsFirst(keys, t[..k])
  {
    forall a, q | 0 <= a < k && 0 <= q < |row| && q !in t[..k]
      ensures Before(keys, t[a], q)
    {
      RestIsLater(keys, row, me, window, t, k, q, a);
    }
  }

  // What is not among the first k of the sorted window is later in it or was left out.
  lemma {:induction false} RestIsLater(keys: seq<int>, row: seq<real>, me: int, window: seq<nat>, t: seq<nat>, k: nat, q: nat, a: nat)
    requires Follows(keys, row, me) && Nearest(row, window, |window|) && q < |row|
    requires InRange(keys, t) && Ordered(keys, t) && (forall x :: x in t <==> x in window)
    requires a < k <= |t| && q !in t[..k]
    requires |window| == |row| || keys[t[|t| - 1]] > keys[t[k - 1]]
    ensures Before(keys, t[a], q)
  {
    assert forall b :: 0 <= b < k ==> t[b] in t[..k];
    if q !in window && |window| == |row| {
      AllInside(window, |row|, q);
    } else if q !in window {
      OutsideIsLater(keys, row, me, window, t, k, q, a);
    } else {
      var b :| 0 <= b < |t| && t[b] == q;
    }
  }

  // A point the window left out comes after everything a complete window keeps.
  lemma {:induction false} OutsideIsLater(keys: seq<int>, row: seq<real>, me: int, window: seq<nat>, t: seq<nat>, k: nat, q: nat, a: nat)
    requires Follows(keys, row, me) && Nearest(row, window, |window|) && q < |row| && q !in window
    requires InRange(keys, t) && Ordered(keys, t) && (forall x :: x in t ==> x in window)
    requires a < k <= |t| && keys[t[|t| - 1]] > keys[t[k - 1]]
    ensures Before(keys, t[a], q)
  {
    var far, kth := t[|t| - 1], t[k - 1];
    assert far in t && kth in t;
    assert row[far] <= row[q] && row[kth] <= row[q];
    assert a < k - 1 ==> Before(keys, t[a], kth);
    // had the query's own point been left out, everything kept would coincide with it and share its key
    assert row[q] <= 0.0 ==> row[far] <= row[kth];
  }

  // ---- the growing window ----

  predicate AllDone(keys: seq<seq<int>>, win: Windows, k: nat)
    requires |keys| == |win| && forall r :: 0 <= r < |win| ==> InRange(keys[r], win[r])
  {
    forall r :: 0 <= r < |win| ==> RowComplete(keys[r], win[r], k)
  }

  // The stopping test of the loop at window w.
  predicate Done(p: Problem, win: Windows, w: nat)
    requires p.Valid() && Fits(p, win, w)
  {
    AllDone(AllKeys(p, Tol(p, win, w)), win, p.k)
  }

  // The widths short of the whole set at which the loop would stop.
  ghost function Stops(p: Problem, tree: Tree): set<nat>
    requires p.Valid() && Answers(p, tree)
  {
    set w: nat | p.k + 16 <= w < p.n && Done(p, Answer(p, tree, w), w)
  }

  // The window it stops at, starting from w.
  ghost function Final(n: nat, stops: set<nat>, w: nat): (f: nat)
    requires 1 <= w <= n
    ensures w <= f <= n
    decreases n - w
  {
    if w == n || w in stops then w else Final(n, stops, AtMost(n, w * 2))
  }

  ghost function FinalWindow(p: Problem, tree: Tree): (f: nat)
    requires p.Valid() && Answers(p, tree)
    ensures p.k <= f <= p.n && 1 <= f
  {
    Final(p.n, Stops(p, tree), AtMost(p.n, p.k + 16))
  }

  // The rounding unit of the last window.
  ghost function FinalTol(p: Problem, tree: Tree): (tol: real)
    requires p.Valid() && Answers(p, tree)
    ensures tol > 0.0
  {
    Tol(p, Answer(p, tree, FinalWindow(p, tree)), FinalWindow(p, tree))
  }

  // A row of a result: the k first points of the whole set in the order of their keys.
  ghost predicate RowIs(row: seq<real>, keys: seq<int>, k: nat, d: seq<real>, idx: seq<nat>)
    requires |row| == |keys|
  {
    && |d| == |idx| == k
    && IsFirst(keys, idx)
    && forall c :: 0 <= c < k ==> d[c] == row[idx[c]]
  }

  ghost predicate ResultIs(p: Problem, tol: real, d: seq<seq<real>>, idx: seq<seq<nat>>)
    requires p.Valid() && tol > 0.0
  {
    && |d| == |idx| == |p.dist|
    && forall r :: 0 <= r < |p.dist| ==> RowIs(p.dist[r], AllKeys(p, tol)[r], p.k, d[r], idx[r])
  }

  function Asked(dist: seq<seq<real>>, n: nat, k: nat, selfFirst: bool): Problem {
    Problem(dist, n, AtMost(k, n), selfFirst)
  }

  method KnnDeterministic(dist: seq<seq<real>>, n: nat, k: nat, selfFirst: bool, tree: Tree)
    returns (d: seq<seq<real>>, idx: seq<seq<nat>>)
    requires Asked(dist, n, k, selfFirst).Valid() && Answers(Asked(dist, n, k, selfFirst), tree)
    ensures ResultIs(Asked(dist, n, k, selfFirst), FinalTol(Asked(dist, n, k, selfFirst), tree), d, idx)
  {
    d, idx := GrowWindow(Asked(dist, n, k, selfFirst), tree);
  }

  lemma Stopped(p: Problem, tree: Tree, w: nat, win: Windows)
    requires p.Valid() && Answers(p, tree) && w <= p.n && win == Answer(p, tree, w) && w == FinalWindow(p, tree)
    ensures FinalTol(p, tree) == Tol(p, win, w)
  {
  }

  lemma StopsWhenDone(p: Problem, tree: Tree, w: nat)
    requires p.Valid() && Answers(p, tree) && p.k + 16 <= w < p.n
    ensures w in Stops(p, tree) <==> Done(p, Answer(p, tree, w), w)
  {
  }

  method GrowWindow(p: Problem, tree: Tree) returns (d: seq<seq<real>>, idx: seq<seq<nat>>)
    requires p.Valid() && Answers(p, tree)
    ensures ResultIs(p, FinalTol(p, tree), d, idx)
  {
    ghost var w;
    w, d, idx := Widen(p, tree, Stops(p, tree));
    Stopped(p, tree, w, Answer(p, tree, w));
  }

  // The loop.
  method Widen(p: Problem, tree: Tree, ghost stops: set<nat>) returns (ghost w: nat, d: seq<seq<real>>, idx: seq<seq<nat>>)
    requires p.Valid() && Answers(p, tree) && stops == Stops(p, tree)
    ensures w == Final(p.n, stops, AtMost(p.n, p.k + 16))
    ensures ResultIs(p, Tol(p, Answer(p, tree, w), w), d, idx)
  {
    var window := AtMost(p.n, p.k + 16);
    while true
      invariant AtMost(p.n, p.k + 16) <= window <= p.n
      invariant Final(p.n, stops, window) == Final(p.n, stops, AtMost(p.n, p.k + 16))
      decreases p.n - window
    {
      var stop;
      stop, d, idx := TryWindow(p, tree, window);
      if stop {
        w := window;
        return;
      }
      window := AtMost(p.n, window * 2);
    }
  }

  // One query of the tree, and whether its window was wide enough.
  method TryWindow(p: Problem, tree: Tree, w: nat) returns (stop: bool, d: seq<seq<real>>, idx: seq<seq<nat>>)
    requires p.Valid() && Answers(p, tree) && AtMost(p.n, p.k + 16) <= w <= p.n
    ensures stop <==> w == p.n || w in Stops(p, tree)
    ensures stop ==> ResultIs(p, Tol(p, Answer(p, tree, w), w), d, idx)
  {
    stop, d, idx := QueryWindow(p, Answer(p, tree, w), w);
    if w < p.n {
      StopsWhenDone(p, tree, w);
    } else {
      stop := true;
    }
  }

  // One pass of the loop: sort every row of the window and, when it is wide enough, cut it to k.
  method QueryWindow(p: Problem, win: Windows, w: nat) returns (complete: bool, d: seq<seq<real>>, idx: seq<seq<nat>>)
    requires p.Valid() && Fits(p, win, w) && 1 <= w <= p.n && p.k <= w
    ensures complete == Done(p, win, w)
    ensures w == p.n || complete ==> ResultIs(p, Tol(p, win, w), d, idx)
  {
    var tol := Tolerance(p, win, w);
    var keys := AllKeys(p, tol);
    var sorted, done := SortRows(keys, win, p.k);
    complete := false !in done;
    if w >= p.n || complete {
      AllRowsFirst(p, win, w, sorted);
      d, idx := FirstColumns(p.dist, keys, sorted, p.k);
    } else {
      d, idx := [], [];
    }
  }

  // d.max(), 0 for an empty array
  method Maximum(m: seq<real>) returns (top: real)
    ensures top == Largest(m)
  {
    top := 0.0;
    for r := 0 to |m|
      invariant top == Largest(m[..r])
    {
      assert m[..r + 1][..r] == m[..r];
      top := Max(top, m[r]);
    }
    assert m[..|m|] == m;
  }

  method Tolerance(p: Problem, win: Windows, w: nat) returns (tol: real)
    requires p.Valid() && Fits(p, win, w)
    ensures tol == Tol(p, win, w)
  {
    var scale := Maximum(RowMaxima(p, win, w));
    tol := if scale > 0.0 then scale * TIE_REL_TOL else 1.0;
  }

  method SortRow(keys: seq<int>, window: seq<nat>, k: nat) returns (t: seq<nat>, done: bool)
    requires InRange(keys, window) && window != [] && k <= |window|
    ensures t == Sorted(keys, window) && done == RowComplete(keys, window, k)
  {
    t := Sorted(keys, window);
    done := k > 0 && keys[t[|t| - 1]] > keys[t[k - 1]];
  }

  predicate RowSorted(keys: seq<int>, window: seq<nat>, k: nat, t: seq<nat>, done: bool)
    requires InRange(keys, window)
  {
    t == Sorted(keys, window) && done == RowComplete(keys, window, k)
  }

  // Each row sorted, and whether it is complete.
  method SortRows(keys: seq<seq<int>>, win: Windows, k: nat) returns (sorted: seq<seq<nat>>, done: seq<bool>)
    requires |keys| == |win|
    requires forall r :: 0 <= r < |win| ==> InRange(keys[r], win[r]) && win[r] != [] && k <= |win[r]|
    ensures |sorted| == |done| == |win|
    ensures forall r :: 0 <= r < |win| ==> RowSorted(keys[r], win[r], k, sorted[r], done[r])
  {
    sorted, done := [], [];
    for r := 0 to |win|
      invariant |sorted| == |done| == r
      invariant forall q :: 0 <= q < r ==> RowSorted(keys[q], win[q], k, sorted[q], done[q])
    {
      var t, full := SortRow(keys[r], win[r], k);
      sorted := sorted + [t];
      done := done + [full];
    }
  }

  lemma AllRowsFirst(p: Problem, win: Windows, w: nat, sorted: seq<seq<nat>>)
    requires p.Valid() && Fits(p, win, w) && p.k <= w <= p.n && |sorted| == |win|
    requires w == p.n || Done(p, win, w)
    requires forall r :: 0 <= r < |win| ==> sorted[r] == Sorted(AllKeys(p, Tol(p, win, w))[r], win[r])
    ensures forall r :: 0 <= r < |win| ==> |sorted[r]| >= p.k && IsFirst(AllKeys(p, Tol(p, win, w))[r], sorted[r][..p.k])
  {
    var tol := Tol(p, win, w);
    forall r | 0 <= r < |win|
      ensures |sorted[r]| >= p.k && IsFirst(AllKeys(p, tol)[r], sorted[r][..p.k])
    {
      KeysFollow(p, r, tol);
      CompleteIsFirst(Keys(p, r, tol), p.dist[r], Self(p, r), win[r], p.k);
    }
  }

  // d[:, :k], idx[:, :k]
  method FirstColumns(dist: seq<seq<real>>, keys: seq<seq<int>>, sorted: seq<seq<nat>>, k: nat)
    returns (d: seq<seq<real>>, idx: seq<seq<nat>>)
    requires |dist| == |keys| == |sorted|
    requires forall r :: 0 <= r < |dist| ==> |dist[r]| == |keys[r]| && |sorted[r]| >= k && IsFirst(keys[r], sorted[r][..k])
    ensures |d| == |idx| == |dist|
    ensures forall r :: 0 <= r < |dist| ==> RowIs(dist[r], keys[r], k, d[r], idx[r])
  {
    d, idx := [], [];
    for r := 0 to |dist|
      invariant |d| == |idx| == r
      invariant forall q :: 0 <= q < r ==> RowIs(dist[q], keys[q], k, d[q], idx[q])
    {
      var kept := sorted[r][..k];
      idx := idx + [kept];
      d := d + [seq(k, c requires 0 <= c < k => dist[r][kept[c]])];
    }
  }

  lemma SelfKeyIsLeast(p: Problem, r: nat, tol: real)
    requires p.Valid() && p.selfFirst && r < |p.dist| && tol > 0.0
    ensures Keys(p, r, tol)[r] == -1
    ensures forall j :: 0 <= j < p.n && j != r ==> Keys(p, r, tol)[j] >= 0
  {
    forall j: nat | j < p.n && j != r
      ensures Keys(p, r, tol)[j] >= 0
    {
      KeyMonotone(p, r, tol, j, j);
    }
  }

  lemma LeastComesFirst(keys: seq<int>, r: nat, idx: seq<nat>)
    requires IsFirst(keys, idx) && idx != [] && r < |keys|
    requires forall j :: 0 <= j < |keys| && j != r ==> keys[r] < keys[j]
    ensures idx[0] == r
  {
    assert forall a :: 0 < a < |idx| ==> Before(keys, idx[0], idx[a]);
    var first := Before(keys, idx[0], r);
    assert r in idx;
  }

  // With self_first a point is its own first neighbour, however many coincide with it.
  lemma SelfComesFirst(p: Problem, tol: real, d: seq<seq<real>>, idx: seq<seq<nat>>, r: nat)
    requires p.Valid() && p.selfFirst && p.k > 0 && tol > 0.0 && ResultIs(p, tol, d, idx) && r < |p.dist|
    ensures idx[r][0] == r && d[r][0] == 0.0
  {
    SelfKeyIsLeast(p, r, tol);
    LeastComesFirst(Keys(p, r, tol), r, idx[r]);
  }

  // ---- the tree's choice among ties does not matter ----

  // The farthest distance in a window of given width is the same whichever ties it keeps.
  lemma {:induction false} MaxOverAgrees(row: seq<real>, s: seq<nat>, t: seq<nat>, w: nat)
    requires Nearest(row, s, w) && Nearest(row, t, w)
    requires forall j :: 0 <= j < |row| ==> row[j] >= 0.0
    ensures MaxOver(row, s) == MaxOver(row, t)
  {
    MaxOverBounded(row, s, t, w);
    MaxOverBounded(row, t, s, w);
  }

  lemma {:induction false} MaxOverBounded(row: seq<real>, s: seq<nat>, t: seq<nat>, w: nat)
    requires Nearest(row, s, w) && Nearest(row, t, w)
    requires forall j :: 0 <= j < |row| ==> row[j] >= 0.0
    ensures MaxOver(row, s) <= MaxOver(row, t)
  {
    if s != [] {
      var a :| 0 <= a < |s| && row[s[a]] == MaxOver(row, s);
      if s[a] !in t {
        var b := Other(s, t, a);
        assert row[s[a]] <= row[t[b]];
      } else {
        var b :| 0 <= b < |t| && t[b] == s[a];
      }
    }
  }

  // Of two windows of one width, if the first has a point the second lacks, the second has one the first lacks.
  lemma {:induction false} Other(s: seq<nat>, t: seq<nat>, a: nat) returns (b: nat)
    requires Distinct(s) && Distinct(t) && |s| == |t| && a < |s| && s[a] !in t
    ensures b < |t| && t[b] !in s
  {
    var inS, inT := Members(s), Members(t);
    DistinctSize(s);
    DistinctSize(t);
    if forall c :: 0 <= c < |t| ==> t[c] in s {
      assert inT <= inS - {s[a]};
      SubsetSize(inT, inS - {s[a]});
    }
    b :| 0 <= b < |t| && t[b] !in s;
  }

  lemma {:induction false} MaximaAgree(p: Problem, win: Windows, other: Windows, w: nat)
    requires p.Valid() && Fits(p, win, w) && Fits(p, other, w)
    ensures RowMaxima(p, win, w) == RowMaxima(p, other, w)
  {
    forall r | 0 <= r < |win|
      ensures RowMaxima(p, win, w)[r] == RowMaxima(p, other, w)[r]
    {
      MaxOverAgrees(p.dist[r], win[r], other[r], w);
    }
  }

  // So every answer of the tree gives the same tie tolerance.
  lemma TolAgrees(p: Problem, win: Windows, other: Windows, w: nat)
    requires p.Valid() && Fits(p, win, w) && Fits(p, other, w)
    ensures Tol(p, win, w) == Tol(p, other, w)
  {
    MaximaAgree(p, win, other, w);
  }

  lemma LastIsLargest(keys: seq<int>, t: seq<nat>, x: nat)
    requires InRange(keys, t) && Ordered(keys, t) && x in t
    ensures keys[x] <= keys[t[|t| - 1]]
  {
    var b :| 0 <= b < |t| && t[b] == x;
    assert b < |t| - 1 ==> Before(keys, t[b], t[|t| - 1]);
  }

  // The window reaches as far as some point other than the query's own.
  lemma {:induction false} Farthest(keys: seq<int>, row: seq<real>, me: int, s: seq<nat>) returns (x: nat)
    requires Follows(keys, row, me) && Nearest(row, s, |s|) && |s| >= 2
    ensures x in s && x != me && row[x] == MaxOver(row, s)
  {
    var a :| 0 <= a < |s| && row[s[a]] == MaxOver(row, s);
    if s[a] != me {
      x := s[a];
    } else {
      // every kept distance is zero, so any other point does as well
      var b := if a == 0 then 1 else 0;
      x := s[b];
      assert 0.0 <= row[s[b]] <= MaxOver(row, s);
    }
  }

  // That point's key is the last of the sorted window.
  lemma {:induction false} Reach(keys: seq<int>, row: seq<real>, me: int, s: seq<nat>) returns (x: nat)
    requires Follows(keys, row, me) && Nearest(row, s, |s|) && |s| >= 2
    ensures x in s && x != me && row[x] == MaxOver(row, s)
    ensures keys[Sorted(keys, s)[|s| - 1]] == keys[x]
  {
    x := Farthest(keys, row, me, s);
    LastKey(keys, row, me, s, x);
  }

  lemma {:induction false} LastKey(keys: seq<int>, row: seq<real>, me: int, s: seq<nat>, x: nat)
    requires Follows(keys, row, me) && InRange(keys, s) && Distinct(s) && x in s && x != me
    requires forall y :: y in s ==> row[y] <= row[x]
    ensures keys[Sorted(keys, s)[|s| - 1]] == keys[x]
  {
    var t := Sorted(keys, s);
    var last := t[|s| - 1];
    SortedOrders(keys, s);
    LastIsLargest(keys, t, x);
    assert last in t;
    FollowsAt(keys, row, me, last, x);
  }

  // Points with keys below the k-th of a sorted list fit in fewer than k places.
  lemma {:induction false} FewBelow(keys: seq<int>, t: seq<nat>, f: seq<nat>, k: nat, top: int)
    requires InRange(keys, t) && Ordered(keys, t) && 0 < k <= |t|
    requires InRange(keys, f) && Distinct(f) && |f| == k
    requires forall a :: 0 <= a < k ==> f[a] in t && keys[f[a]] < top
    ensures keys[t[k - 1]] < top
  {
    assert forall b :: k <= b < |t| ==> Before(keys, t[k - 1], t[b]);
    if keys[t[k - 1]] >= top {
      var low, all := t[..k - 1], Members(f);
      forall c | 0 <= c < k
        ensures f[c] in low
      {
        var b :| 0 <= b < |t| && t[b] == f[c];
        assert b < k - 1 && low[b] == f[c];
      }
      OrderedIsDistinct(keys, low);
      DistinctSize(f);
      DistinctSize(low);
      assert all <= Members(low);
      SubsetSize(all, Members(low));
    }
  }

  lemma OrderedIsDistinct(keys: seq<int>, s: seq<nat>)
    requires InRange(keys, s) && Ordered(keys, s)
    ensures Distinct(s)
  {
    forall a, b | 0 <= a < b < |s|
      ensures s[a] != s[b]
    {
      assert Before(keys, s[a], s[b]);
    }
  }

  lemma FollowsAt(keys: seq<int>, row: seq<real>, me: int, i: nat, j: nat)
    requires Follows(keys, row, me) && i < |row| && j < |row| && row[i] <= row[j] && j != me
    ensures keys[i] <= keys[j]
  {
  }

  // The k-th kept point of a complete window is not the query's own, and is nearer than its farthest.
  lemma {:induction false} KthIsAnother(keys: seq<int>, row: seq<real>, me: nat, s: seq<nat>, k: nat, x: nat)
    requires Follows(keys, row, me) && me < |row| && k >= 2 && Nearest(row, s, |s|) && RowComplete(keys, s, k)
    requires x in s && x != me && keys[Sorted(keys, s)[|s| - 1]] == keys[x]
    ensures row[me] < row[x]
  {
    var sorted := Sorted(keys, s);
    SortedOrders(keys, s);
    KthIsNotSelf(keys, row, me, sorted, k);
    var kth := sorted[k - 1];
    if row[x] <= row[kth] {
      FollowsAt(keys, row, me, x, kth);
    }
  }

  lemma KthIsNotSelf(keys: seq<int>, row: seq<real>, me: nat, sorted: seq<nat>, k: nat)
    requires Follows(keys, row, me) && me < |row| && InRange(keys, sorted) && Ordered(keys, sorted) && 2 <= k <= |sorted|
    ensures sorted[k - 1] != me
  {
    assert Before(keys, sorted[0], sorted[k - 1]);
  }

  // A point nearer than one that is kept is kept.
  lemma NearerIsKept(row: seq<real>, t: seq<nat>, q: nat, y: nat)
    requires Nearest(row, t, |t|) && y in t && q < |row| && row[q] < row[y]
    ensures q in t
  {
  }

  // The query's own point is in every window as wide as a complete one: some kept distance is positive.
  lemma {:induction false} SelfKept(keys: seq<int>, row: seq<real>, me: nat, s: seq<nat>, t: seq<nat>, k: nat)
    requires Follows(keys, row, me) && me < |row| && k >= 2
    requires Nearest(row, s, |s|) && Nearest(row, t, |s|) && |s| >= 2
    requires RowComplete(keys, s, k)
    ensures me in t
  {
    MaxOverAgrees(row, s, t, |s|);
    var y := Reach(keys, row, me, t);
    var x := Reach(keys, row, me, s);
    KthIsAnother(keys, row, me, s, k, x);
    NearerIsKept(row, t, me, y);
  }

  // Windows of one width are complete together: every other window also holds the k points found by one.
  lemma {:induction false} RowCompleteAgrees(keys: seq<int>, row: seq<real>, me: int, s: seq<nat>, t: seq<nat>, k: nat)
    requires Follows(keys, row, me) && (0 <= me < |row| ==> k >= 2)
    requires Nearest(row, s, |s|) && Nearest(row, t, |s|) && |s| >= 2 && k <= |s|
    requires RowComplete(keys, s, k)
    ensures RowComplete(keys, t, k)
  {
    var x := Reach(keys, row, me, s);
    var y := Reach(keys, row, me, t);
    assert keys[x] == keys[y] by {
      MaxOverAgrees(row, s, t, |s|);
    }
    if 0 <= me < |row| {
      SelfKept(keys, row, me, s, t, k);
    }
    SortedOrders(keys, s);
    SortedOrders(keys, t);
    KthBelow(keys, row, me, Sorted(keys, s), t, Sorted(keys, t), y, k);
  }

  lemma {:induction false} KthBelow(keys: seq<int>, row: seq<real>, me: int, u: seq<nat>, t: seq<nat>, v: seq<nat>, y: nat, k: nat)
    requires Follows(keys, row, me) && InRange(keys, u) && Ordered(keys, u) && InRange(keys, v) && Ordered(keys, v)
    requires Nearest(row, t, |t|) && y in t && (0 <= me < |row| ==> me in t)
    requires 0 < k <= |u| && k <= |v| && keys[u[k - 1]] < keys[y] && (forall x :: x in t ==> x in v)
    ensures keys[v[k - 1]] < keys[y]
  {
    var f := u[..k];
    forall a | 0 <= a < k
      ensures keys[f[a]] < keys[y] && f[a] in v
    {
      BelowReach(keys, row, me, u, t, y, k, a);
    }
    OrderedIsDistinct(keys, f);
    FewBelow(keys, v, f, k, keys[y]);
  }

  lemma {:induction false} BelowReach(keys: seq<int>, row: seq<real>, me: int, sorted: seq<nat>, t: seq<nat>, y: nat, k: nat, a: nat)
    requires Follows(keys, row, me) && InRange(keys, sorted) && Ordered(keys, sorted)
    requires Nearest(row, t, |t|) && y in t && (0 <= me < |row| ==> me in t)
    requires a < k <= |sorted| && keys[sorted[k - 1]] < keys[y]
    ensures keys[sorted[a]] < keys[y] && sorted[a] in t
  {
    assert a < k - 1 ==> Before(keys, sorted[a], sorted[k - 1]);
    assert sorted[a] != me ==> row[sorted[a]] < row[y];
  }

  lemma {:induction false} DoneImplied(p: Problem, win: Windows, other: Windows, w: nat)
    requires p.Valid() && Fits(p, win, w) && Fits(p, other, w) && (p.selfFirst ==> p.k >= 2) && 2 <= w && p.k <= w
    requires Done(p, win, w)
    ensures Done(p, other, w)
  {
    TolAgrees(p, win, other, w);
    var tol := Tol(p, win, w);
    forall r | 0 <= r < |other|
      ensures RowComplete(AllKeys(p, tol)[r], other[r], p.k)
    {
      KeysFollow(p, r, tol);
      RowCompleteAgrees(AllKeys(p, tol)[r], p.dist[r], Self(p, r), win[r], other[r], p.k);
    }
  }

  lemma DoneAgrees(p: Problem, tree: Tree, other: Tree, w: nat)
    requires p.Valid() && Answers(p, tree) && Answers(p, other) && (p.selfFirst ==> p.k >= 2)
    requires 2 <= w <= p.n && p.k <= w
    ensures Done(p, Answer(p, tree, w), w) == Done(p, Answer(p, other, w), w)
  {
    var a, b := Answer(p, tree, w), Answer(p, other, w);
    if Done(p, a, w) {
      DoneImplied(p, a, b, w);
    } else if Done(p, b, w) {
      DoneImplied(p, b, a, w);
    }
  }

  lemma StopsAgree(p: Problem, tree: Tree, other: Tree)
    requires p.Valid() && Answers(p, tree) && Answers(p, other) && (p.selfFirst ==> p.k >= 2)
    ensures Stops(p, tree) == Stops(p, other)
  {
    forall w: nat | p.k + 16 <= w < p.n
      ensures w in Stops(p, tree) <==> w in Stops(p, other)
    {
      StopsAgreeAt(p, tree, other, w);
    }
  }

  lemma StopsAgreeAt(p: Problem, tree: Tree, other: Tree, w: nat)
    requires p.Valid() && Answers(p, tree) && Answers(p, other) && (p.selfFirst ==> p.k >= 2)
    requires p.k + 16 <= w < p.n
    ensures w in Stops(p, tree) <==> w in Stops(p, other)
  {
    DoneAgrees(p, tree, other, w);
    StopsWhenDone(p, tree, w);
    StopsWhenDone(p, other, w);
  }

  // So every tree makes the loop stop at the same window.
  lemma FinalAgrees(p: Problem, tree: Tree, other: Tree)
    requires p.Valid() && Answers(p, tree) && Answers(p, other) && (p.selfFirst ==> p.k >= 2)
    ensures FinalWindow(p, tree) == FinalWindow(p, other)
  {
    StopsAgree(p, tree, other);
  }

  lemma {:induction false} SameTolSameResult(p: Problem, tol: real, d: seq<seq<real>>, idx: seq<seq<nat>>, d': seq<seq<real>>, idx': seq<seq<nat>>)
    requires p.Valid() && tol > 0.0 && ResultIs(p, tol, d, idx) && ResultIs(p, tol, d', idx')
    ensures d == d' && idx == idx'
  {
    forall r | 0 <= r < |p.dist|
      ensures idx[r] == idx'[r] && d[r] == d'[r]
    {
      FirstIsUnique(AllKeys(p, tol)[r], idx[r], idx'[r]);
    }
  }

  lemma {:induction false} FinalTolAgrees(p: Problem, tree: Tree, other: Tree)
    requires p.Valid() && Answers(p, tree) && Answers(p, other) && (p.selfFirst ==> p.k >= 2)
    ensures FinalTol(p, tree) == FinalTol(p, other)
  {
    FinalAgrees(p, tree, other);
    var w := FinalWindow(p, tree);
    Stopped(p, tree, w, Answer(p, tree, w));
    Stopped(p, other, w, Answer(p, other, w));
    AnswerTolAgrees(p, tree, other, w);
  }

  lemma AnswerTolAgrees(p: Problem, tree: Tree, other: Tree, w: nat)
    requires p.Valid() && Answers(p, tree) && Answers(p, other) && w <= p.n
    ensures Tol(p, Answer(p, tree, w), w) == Tol(p, Answer(p, other, w), w)
  {
    TolAgrees(p, Answer(p, tree, w), Answer(p, other, w), w);
  }

  // One neighbour with self_first is the point itself, whatever the rounding unit.
  lemma {:induction false} SelfOnly(p: Problem, tol: real, tol': real, d: seq<seq<real>>, idx: seq<seq<nat>>, d': seq<seq<real>>, idx': seq<seq<nat>>)
    requires p.Valid() && p.selfFirst && p.k <= 1 && tol > 0.0 && tol' > 0.0
    requires ResultIs(p, tol, d, idx) && ResultIs(p, tol', d', idx')
    ensures d == d' && idx == idx'
  {
    forall r | 0 <= r < |p.dist|
      ensures idx[r] == idx'[r] && d[r] == d'[r]
    {
      assert RowIs(p.dist[r], AllKeys(p, tol)[r], p.k, d[r], idx[r]);
      assert RowIs(p.dist[r], AllKeys(p, tol')[r], p.k, d'[r], idx'[r]);
      if p.k == 1 {
        SelfComesFirst(p, tol, d, idx, r);
        SelfComesFirst(p, tol', d', idx', r);
        assert idx[r] == [r] == idx'[r] && d[r] == [0.0] == d'[r];
      } else {
        assert idx[r] == [] == idx'[r] && d[r] == [] == d'[r];
      }
    }
  }

  /**
   Determinism: two trees that answer every query correctly, each keeping whichever tied neighbours it
   likes, lead to the same result, although the number of times the window grows and the rounding unit
   are themselves computed from their answers.
   */
  lemma {:induction false} TreeDoesNotMatter(p: Problem, tree: Tree, other: Tree,
                                             d: seq<seq<real>>, idx: seq<seq<nat>>, d': seq<seq<real>>, idx': seq<seq<nat>>)
    requires p.Valid() && Answers(p, tree) && Answers(p, other)
    requires ResultIs(p, FinalTol(p, tree), d, idx) && ResultIs(p, FinalTol(p, other), d', idx')
    ensures d == d' && idx == idx'
  {
    if p.selfFirst && p.k <= 1 {
      SelfOnly(p, FinalTol(p, tree), FinalTol(p, other), d, idx, d', idx');
    } else {
      FinalTolAgrees(p, tree, other);
      SameTolSameResult(p, FinalTol(p, tree), d, idx, d', idx');
    }
  }
}
