/** scripts/diag/detrend.py: a robust z-score against a radial trend. */
module Detrend {
  // What the arrays compute in two passes is specified point by point: ZScore(data, q) is the score of a
  // point q against the bag of all points.

  import opened Indices
  import opened Medians
  import opened Numpy
  import opened Wrappers

  const MAD_TO_SIGMA := 1.4826
  const REFINE_Z := 3.5
  const WINDOW_HALF_SPAN := 2

  datatype Point = Point(r: real, v: real)

  // One good bin: its centre, and the median and median absolute deviation of its window.
  datatype Knot = Knot(centre: real, med: real, mad: real)

  // ---- bins ----

  // np.linspace(lo, hi, n + 1)
  function Edges(lo: real, hi: real, n: nat): (e: seq<real>)
    requires n > 0
    ensures |e| == n + 1
  {
    seq(n + 1, k => k as real * ((hi - lo) / n as real) + lo)
  }

  // np.digitize: how many edges are at or below x.
  function Digitize(x: real, edges: seq<real>): (d: nat)
    ensures d <= |edges|
    ensures d > 0 ==> edges[d - 1] <= x
    ensures forall k :: d <= k < |edges| ==> x < edges[k]
  {
    if edges == [] then 0
    else if edges[|edges| - 1] <= x then |edges|
    else Digitize(x, edges[..|edges| - 1])
  }

  function BinOf(x: real, edges: seq<real>): (b: nat)
    requires |edges| >= 2
    ensures b < |edges| - 1
  {
    var b := Digitize(x, edges) - 1;
    if b < 0 then 0 else if b > |edges| - 2 then |edges| - 2 else b
  }

  predicate Increasing(edges: seq<real>) {
    forall a, b :: 0 <= a < b < |edges| ==> edges[a] < edges[b]
  }

  lemma EdgesIncrease(lo: real, hi: real, n: nat)
    requires n > 0 && lo < hi
    ensures Increasing(Edges(lo, hi, n)) && Edges(lo, hi, n)[0] == lo && Edges(lo, hi, n)[n] == hi
  {
    var step := (hi - lo) / n as real;
    assert step > 0.0 && n as real * step == hi - lo;
    forall a, b | 0 <= a < b <= n
      ensures Edges(lo, hi, n)[a] < Edges(lo, hi, n)[b]
    {
      assert (b - a) as real * step > 0.0;
      assert b as real * step == a as real * step + (b - a) as real * step;
    }
  }

  // A point between the outer edges lies in its bin; the last bin also holds its right edge.
  lemma BinHolds(x: real, edges: seq<real>)
    requires |edges| >= 2 && Increasing(edges) && edges[0] <= x <= edges[|edges| - 1]
    ensures var b := BinOf(x, edges); edges[b] <= x && (x < edges[b + 1] || (b == |edges| - 2 && x == edges[b + 1]))
  {
    var d := Digitize(x, edges);
    assert d == |edges| ==> x == edges[|edges| - 1];
  }

  // Every point lies in its bin of the edges laid over the points.
  lemma PointsLieInTheirBins(data: seq<Point>, n: nat, i: nat)
    requires n > 0 && i < |data| && Low(data) < High(data)
    ensures var edges, x := Edges(Low(data), High(data), n), data[i].r;
      var b := BinOf(x, edges);
      edges[b] <= x && (x < edges[b + 1] || (b == n - 1 && x == edges[b + 1] == High(data)))
  {
    EdgesIncrease(Low(data), High(data), n);
    BinHolds(data[i].r, Edges(Low(data), High(data), n));
  }

  function Centre(edges: seq<real>, b: nat): real
    requires b + 1 < |edges|
  {
    0.5 * (edges[b] + edges[b + 1])
  }

  predicate Near(bin: nat, b: nat) {
    b - WINDOW_HALF_SPAN <= bin <= b + WINDOW_HALF_SPAN
  }

  // ---- the trend ----

  function Centres(ks: seq<Knot>): (s: seq<real>)
    ensures |s| == |ks|
  {
    seq(|ks|, i requires 0 <= i < |ks| => ks[i].centre)
  }

  function Meds(ks: seq<Knot>): (s: seq<real>)
    ensures |s| == |ks| && forall i :: 0 <= i < |ks| ==> s[i] == ks[i].med
  {
    seq(|ks|, i requires 0 <= i < |ks| => ks[i].med)
  }

  function Mads(ks: seq<Knot>): (s: seq<real>)
    ensures |s| == |ks| && forall i :: 0 <= i < |ks| ==> s[i] == ks[i].mad
  {
    seq(|ks|, i requires 0 <= i < |ks| => ks[i].mad)
  }

  function TrendAt(ks: seq<Knot>, r: real): real
    requires ks != []
  {
    Interp(r, Centres(ks), Meds(ks))
  }

  function MadAt(ks: seq<Knot>, r: real): real
    requires ks != []
  {
    Interp(r, Centres(ks), Mads(ks))
  }

  // The scale to fall back to where a window is noiseless.
  function Fallback(ks: seq<Knot>): (s: real)
    requires ks != []
    ensures s > 0.0
  {
    var s := Median(Mads(ks)) * MAD_TO_SIGMA;
    if s > 0.0 then s else 1.0
  }

  function ScaleAt(ks: seq<Knot>, r: real): (s: real)
    requires ks != []
    ensures s > 0.0
  {
    var s := MadAt(ks, r) * MAD_TO_SIGMA;
    if s > 0.0 then s else Fallback(ks)
  }

  function Score(ks: seq<Knot>, q: Point): real
    requires ks != []
  {
    (q.v - TrendAt(ks, q.r)) / ScaleAt(ks, q.r)
  }

  // Which points take part in a pass: all in the first, those not flagged by the first in the second.
  type Keep = Point -> bool

  function Everyone(): Keep {
    q => true
  }

  function Unflagged(ks: seq<Knot>): Keep
    requires ks != []
  {
    q => Abs(Score(ks, q)) <= REFINE_Z
  }

  // The points that count for bin b: kept, and in one of the bins around it.
  function Window(edges: seq<real>, keep: Keep, b: nat): Keep
    requires |edges| >= 2
  {
    (q: Point) => Near(BinOf(q.r, edges), b) && keep(q)
  }

  // Their values.
  function Pooled(data: seq<Point>, counts: Keep): (s: seq<real>) {
    if data == [] then [] else (if counts(data[0]) then [data[0].v] else []) + Pooled(data[1..], counts)
  }

  // Median and spread of one window, none when it holds too few points.
  function Stat(pooled: seq<real>, minPerBin: int): Option<(real, real)> {
    if |pooled| >= minPerBin && pooled != [] then
      Some((Median(pooled), Median(Deviations(pooled, Median(pooled)))))
    else None
  }

  // The statistics of every bin.
  type Stats = nat -> Option<(real, real)>

  function StatsOf(data: seq<Point>, edges: seq<real>, minPerBin: int, keep: Keep): Stats
    requires |edges| >= 2
  {
    (b: nat) => Stat(Pooled(data, Window(edges, keep, b)), minPerBin)
  }

  function KnotAt(stats: Stats, edges: seq<real>, b: nat): seq<Knot>
    requires b + 1 < |edges|
  {
    match stats(b)
    case Some(s) => [Knot(Centre(edges, b), s.0, s.1)]
    case None => []
  }

  // The bins that have any.
  function Knots(stats: Stats, edges: seq<real>, upTo: nat): seq<Knot>
    requires upTo < |edges|
  {
    if upTo == 0 then [] else Knots(stats, edges, upTo - 1) + KnotAt(stats, edges, upTo - 1)
  }

  function AllKnots(data: seq<Point>, edges: seq<real>, minPerBin: int, keep: Keep): seq<Knot>
    requires |edges| >= 2
  {
    Knots(StatsOf(data, edges, minPerBin, keep), edges, |edges| - 1)
  }

  // ---- the whole score ----

  function Low(data: seq<Point>): (m: real)
    requires data != []
    ensures forall i :: 0 <= i < |data| ==> m <= data[i].r
    ensures exists i :: 0 <= i < |data| && m == data[i].r
  {
    if |data| == 1 then data[0].r
    else
      var m := Low(data[1..]);
      assert exists i :: 0 <= i < |data[1..]| && m == data[1..][i].r;
      if data[0].r <= m then data[0].r else m
  }

  function High(data: seq<Point>): (m: real)
    requires data != []
    ensures forall i :: 0 <= i < |data| ==> m >= data[i].r
    ensures exists i :: 0 <= i < |data| && m == data[i].r
  {
    if |data| == 1 then data[0].r
    else
      var m := High(data[1..]);
      assert exists i :: 0 <= i < |data[1..]| && m == data[1..][i].r;
      if data[0].r >= m then data[0].r else m
  }

  predicate AllKept(data: seq<Point>, keep: Keep) {
    forall i :: 0 <= i < |data| ==> keep(data[i])
  }

  function Binned(data: seq<Point>, edges: seq<real>, minPerBin: int, q: Point): real
    requires |edges| >= 2
  {
    var first := AllKnots(data, edges, minPerBin, Everyone());
    if first == [] then 0.0
    else if AllKept(data, Unflagged(first)) then Score(first, q)
    else
      var second := AllKnots(data, edges, minPerBin, Unflagged(first));
      if second == [] then 0.0 else Score(second, q)
  }

  function ZScore(data: seq<Point>, nBins: nat, minPerBin: int, q: Point): real
    requires data != []
  {
    if nBins == 0 || High(data) <= Low(data) then 0.0
    else Binned(data, Edges(Low(data), High(data), nBins), minPerBin, q)
  }

  // ---- the arrays ----

  function Points(r: seq<real>, v: seq<real>): (data: seq<Point>)
    requires |r| == |v|
    ensures |data| == |r| && forall i :: 0 <= i < |r| ==> data[i] == Point(r[i], v[i])
  {
    seq(|r|, i requires 0 <= i < |r| => Point(r[i], v[i]))
  }

  // np.argsort(idx), in any order within a bin.
  ghost predicate SortsBins(order: seq<nat>, bins: seq<nat>) {
    Permutes(order, |bins|) && forall a, b :: 0 <= a < b < |bins| ==> bins[order[a]] <= bins[order[b]]
  }

  function Bins(data: seq<Point>, edges: seq<real>): (bins: seq<nat>)
    requires |edges| >= 2
    ensures |bins| == |data| && forall i :: 0 <= i < |data| ==> bins[i] == BinOf(data[i].r, edges)
  {
    seq(|data|, i requires 0 <= i < |data| => BinOf(data[i].r, edges))
  }

  // np.searchsorted, from the left.
  function SearchSorted(keys: seq<nat>, x: nat): (j: nat)
    ensures j <= |keys|
    ensures j > 0 ==> keys[j - 1] < x
    ensures forall k :: j <= k < |keys| ==> x <= keys[k]
  {
    if keys == [] then 0
    else if keys[|keys| - 1] < x then |keys|
    else SearchSorted(keys[..|keys| - 1], x)
  }

  function Picked(order: seq<nat>, bins: seq<nat>): (keys: seq<nat>)
    requires forall a :: 0 <= a < |order| ==> order[a] < |bins|
    ensures |keys| == |order| && forall a :: 0 <= a < |order| ==> keys[a] == bins[order[a]]
  {
    seq(|order|, a requires 0 <= a < |order| => bins[order[a]])
  }

  lemma SearchSplits(keys: seq<nat>, x: nat, a: nat)
    requires (forall c, d :: 0 <= c < d < |keys| ==> keys[c] <= keys[d]) && a < |keys|
    ensures a < SearchSorted(keys, x) <==> keys[a] < x
  {
    var j: int := SearchSorted(keys, x);
    assert 0 <= a < j - 1 ==> keys[a] <= keys[j - 1];
  }

  lemma InSlice(order: seq<nat>, from: nat, to: nat, a: nat)
    requires Distinct(order) && from <= to <= |order| && a < |order|
    ensures order[a] in order[from..to] <==> from <= a < to
  {
    if from <= a < to {
      assert order[from..to][a - from] == order[a];
    }
  }

  lemma BoundsInOrder(keys: seq<nat>, lo: nat, hi: nat)
    requires (forall c, d :: 0 <= c < d < |keys| ==> keys[c] <= keys[d]) && lo <= hi
    ensures SearchSorted(keys, lo) <= SearchSorted(keys, hi + 1)
  {
    var from := SearchSorted(keys, lo);
    if from > 0 {
      SearchSplits(keys, hi + 1, from - 1);
    }
  }

  // The slice between two bounds holds exactly the points of the bins from lo to hi.
  lemma {:induction false} SliceIsWindow(order: seq<nat>, bins: seq<nat>, lo: nat, hi: nat, i: nat)
    requires SortsBins(order, bins) && lo <= hi && i < |bins|
    ensures var keys := Picked(order, bins);
            var from, to := SearchSorted(keys, lo), SearchSorted(keys, hi + 1);
            from <= to && (i in order[from..to] <==> lo <= bins[i] <= hi)
  {
    var keys := Picked(order, bins);
    var from, to := SearchSorted(keys, lo), SearchSorted(keys, hi + 1);
    AllInside(order, |bins|, i);
    var a :| 0 <= a < |order| && order[a] == i;
    BoundsInOrder(keys, lo, hi);
    SearchSplits(keys, lo, a);
    SearchSplits(keys, hi + 1, a);
    InSlice(order, from, to, a);
  }

  // Values at a list of positions.
  function Value(data: seq<Point>, i: nat): real {
    if i < |data| then data[i].v else 0.0
  }

  function At(data: seq<Point>, s: seq<nat>): (t: seq<real>)
    ensures |t| == |s| && forall a :: 0 <= a < |s| ==> t[a] == Value(data, s[a])
  {
    seq(|s|, a requires 0 <= a < |s| => Value(data, s[a]))
  }

  // sel[weight[sel]]
  function Weighted(s: seq<nat>, weight: seq<bool>): (t: seq<nat>)
    requires forall a :: 0 <= a < |s| ==> s[a] < |weight|
    ensures forall x :: x in t <==> x in s && weight[x]
    ensures Distinct(s) ==> Distinct(t)
  {
    if s == [] then []
    else (if weight[s[0]] then [s[0]] else []) + Weighted(s[1..], weight)
  }

  // The positions from m on that count.
  ghost function Chosen(data: seq<Point>, counts: Keep, m: nat): (s: seq<nat>)
    requires m <= |data|
    ensures forall i :: i in s <==> m <= i < |data| && counts(data[i])
    ensures Distinct(s)
    decreases |data| - m
  {
    if m == |data| then [] else (if counts(data[m]) then [m] else []) + Chosen(data, counts, m + 1)
  }

  lemma {:induction false} PooledIsChosen(data: seq<Point>, counts: Keep, m: nat)
    requires m <= |data|
    ensures Pooled(data[m..], counts) == At(data, Chosen(data, counts, m))
    decreases |data| - m
  {
    if m < |data| {
      var rest := Chosen(data, counts, m + 1);
      assert data[m..][0] == data[m] && data[m..][1..] == data[m + 1..];
      PooledIsChosen(data, counts, m + 1);
      assert At(data, [m] + rest) == [data[m].v] + At(data, rest);
    }
  }

  lemma {:induction false} DistinctBag(s: seq<nat>)
    requires Distinct(s)
    ensures forall x :: multiset(s)[x] == if x in s then 1 else 0
  {
    if s != [] {
      DistinctBag(s[1..]);
      Tail(s);
      assert forall a :: 0 < a < |s| ==> s[0] != s[a];
      assert s[0] !in s[1..];
    }
  }

  lemma {:induction false} ValuesOfBag(data: seq<Point>, s: seq<nat>, t: seq<nat>)
    requires multiset(s) == multiset(t)
    ensures multiset(At(data, s)) == multiset(At(data, t))
  {
    if s == [] {
      assert |multiset(t)| == 0;
      assert t == [];
    } else {
      var j := TakeOut(s, t);
      var rest := t[..j] + t[j + 1..];
      ValuesOfBag(data, s[1..], rest);
      assert At(data, s) == [Value(data, s[0])] + At(data, s[1..]);
      assert At(data, rest) == At(data, t[..j]) + At(data, t[j + 1..]);
      assert At(data, t) == At(data, t[..j]) + [Value(data, t[j])] + At(data, t[j + 1..]);
    }
  }

  // Two lists of the same positions give one bag of values.
  lemma SamePositions(data: seq<Point>, s: seq<nat>, t: seq<nat>)
    requires Distinct(s) && Distinct(t) && forall i :: i in s <==> i in t
    ensures multiset(At(data, s)) == multiset(At(data, t))
  {
    DistinctBag(s);
    DistinctBag(t);
    assert multiset(s) == multiset(t);
    ValuesOfBag(data, s, t);
  }

  // ---- one pass over the bins ----

  lemma StatOfBag(s: seq<real>, t: seq<real>, minPerBin: int)
    requires multiset(s) == multiset(t)
    ensures Stat(s, minPerBin) == Stat(t, minPerBin)
  {
    assert |s| == |multiset(s)| == |multiset(t)| == |t|;
    if s != [] {
      MedianOfBag(s, t);
      DeviationsOfBag(s, t, Median(s));
      MedianOfBag(Deviations(s, Median(s)), Deviations(t, Median(t)));
    }
  }

  function LowBin(b: nat): nat {
    if b < WINDOW_HALF_SPAN then 0 else b - WINDOW_HALF_SPAN
  }

  function HighBin(b: nat, n: nat): nat {
    if n == 0 then 0 else if b + WINDOW_HALF_SPAN < n then b + WINDOW_HALF_SPAN else n - 1
  }

  lemma SliceDistinct(order: seq<nat>, from: nat, to: nat)
    requires Distinct(order) && from <= to <= |order|
    ensures Distinct(order[from..to]) && forall i :: i in order[from..to] ==> i in order
  {
  }

  // What sel holds after the weight is applied: the weighted points of the bins from lo to hi.
  lemma {:induction false} SliceSelects(order: seq<nat>, bins: seq<nat>, weight: seq<bool>, lo: nat, hi: nat, from: nat, to: nat)
    requires SortsBins(order, bins) && |weight| == |bins| && lo <= hi
    requires from == SearchSorted(Picked(order, bins), lo) && to == SearchSorted(Picked(order, bins), hi + 1)
    ensures from <= to && Distinct(Weighted(order[from..to], weight))
    ensures forall i: nat :: i in Weighted(order[from..to], weight) <==> i < |bins| && lo <= bins[i] <= hi && weight[i]
  {
    BoundsInOrder(Picked(order, bins), lo, hi);
    SliceDistinct(order, from, to);
    forall i: nat
      ensures i in Weighted(order[from..to], weight) <==> i < |bins| && lo <= bins[i] <= hi && weight[i]
    {
      if i < |bins| {
        SliceIsWindow(order, bins, lo, hi, i);
      }
    }
  }

  // Any list of the points that count has the pooled values, in some order.
  lemma {:induction false} SelectionIsPooled(data: seq<Point>, counts: Keep, sel: seq<nat>)
    requires Distinct(sel) && forall i: nat :: i in sel <==> i < |data| && counts(data[i])
    ensures multiset(At(data, sel)) == multiset(Pooled(data, counts))
  {
    PooledIsChosen(data, counts, 0);
    assert data[0..] == data;
    SamePositions(data, sel, Chosen(data, counts, 0));
  }

  method MedianAndMad(vb: seq<real>, minPerBin: int) returns (stat: Option<(real, real)>)
    ensures stat == Stat(vb, minPerBin)
  {
    if |vb| >= minPerBin && vb != [] {
      var m := Median(vb);
      stat := Some((m, Median(Deviations(vb, m))));
    } else {
      stat := None;
    }
  }

  method WindowStat(data: seq<Point>, minPerBin: int, weight: seq<bool>, order: seq<nat>, ghost bins: seq<nat>, bounds: seq<nat>,
                    lo: nat, hi: nat, ghost counts: Keep)
    returns (stat: Option<(real, real)>)
    requires |weight| == |bins| == |data| && SortsBins(order, bins)
    requires lo <= hi < |bounds| - 1
    requires bounds[lo] == SearchSorted(Picked(order, bins), lo) && bounds[hi + 1] == SearchSorted(Picked(order, bins), hi + 1)
    requires forall i :: 0 <= i < |data| ==> counts(data[i]) == (lo <= bins[i] <= hi && weight[i])
    ensures stat == Stat(Pooled(data, counts), minPerBin)
  {
    SliceSelects(order, bins, weight, lo, hi, bounds[lo], bounds[hi + 1]);
    var sel := order[bounds[lo]..bounds[hi + 1]];
    sel := Weighted(sel, weight);
    SelectionIsPooled(data, counts, sel);
    StatOfBag(At(data, sel), Pooled(data, counts), minPerBin);
    stat := MedianAndMad(At(data, sel), minPerBin);
  }

  lemma WindowIsRange(data: seq<Point>, edges: seq<real>, keep: Keep, weight: seq<bool>, b: nat)
    requires |edges| >= 2 && b < |edges| - 1
    requires |weight| == |data| && forall i :: 0 <= i < |data| ==> weight[i] == keep(data[i])
    ensures forall i :: 0 <= i < |data| ==>
              Window(edges, keep, b)(data[i]) == (LowBin(b) <= Bins(data, edges)[i] <= HighBin(b, |edges| - 1) && weight[i])
  {
  }

  // np.searchsorted(idx[order], np.arange(n + 1))
  function Bounds(keys: seq<nat>, n: nat): (bounds: seq<nat>)
    ensures |bounds| == n + 1
  {
    seq(n + 1, c requires 0 <= c < n + 1 => SearchSorted(keys, c))
  }

  method BinStat(data: seq<Point>, edges: seq<real>, minPerBin: int, weight: seq<bool>, order: seq<nat>, bounds: seq<nat>, b: nat,
                 ghost keep: Keep)
    returns (stat: Option<(real, real)>)
    requires |edges| >= 2 && b < |edges| - 1 && SortsBins(order, Bins(data, edges))
    requires bounds == Bounds(Picked(order, Bins(data, edges)), |edges| - 1)
    requires |weight| == |data| && forall i :: 0 <= i < |data| ==> weight[i] == keep(data[i])
    ensures stat == Stat(Pooled(data, Window(edges, keep, b)), minPerBin)
  {
    WindowIsRange(data, edges, keep, weight, b);
    stat := WindowStat(data, minPerBin, weight, order, Bins(data, edges), bounds, LowBin(b), HighBin(b, |edges| - 1), Window(edges, keep, b));
  }

  // The entries of the med and mad arrays for one window, absent for NaN.
  predicate Holds(med: Option<real>, mad: Option<real>, stat: Option<(real, real)>) {
    match stat
    case Some(s) => med == Some(s.0) && mad == Some(s.1)
    case None => med == None && mad == None
  }

  ghost predicate Specifies(stats: Stats, data: seq<Point>, edges: seq<real>, minPerBin: int, keep: Keep)
    requires |edges| >= 2
  {
    forall b: nat {:trigger Window(edges, keep, b)} :: stats(b) == Stat(Pooled(data, Window(edges, keep, b)), minPerBin)
  }

  method BinTrend(data: seq<Point>, edges: seq<real>, minPerBin: int, weight: seq<bool>, order: seq<nat>, ghost keep: Keep, ghost stats: Stats)
    returns (med: array<Option<real>>, mad: array<Option<real>>)
    requires |edges| >= 2 && SortsBins(order, Bins(data, edges)) && Specifies(stats, data, edges, minPerBin, keep)
    requires |weight| == |data| && forall i :: 0 <= i < |data| ==> weight[i] == keep(data[i])
    ensures fresh(med) && fresh(mad) && med.Length == mad.Length == |edges| - 1
    ensures forall b :: 0 <= b < |edges| - 1 ==> Holds(med[b], mad[b], stats(b))
  {
    var n := |edges| - 1;
    var bounds := Bounds(Picked(order, Bins(data, edges)), n);
    med := new Option<real>[n](_ => None);
    mad := new Option<real>[n](_ => None);
    for b := 0 to n
      invariant forall c :: 0 <= c < b ==> Holds(med[c], mad[c], stats(c))
      invariant forall c :: b <= c < n ==> med[c] == None && mad[c] == None
    {
      var stat := BinStat(data, edges, minPerBin, weight, order, bounds, b, keep);
      if stat.Some? {
        med[b] := Some(stat.value.0);
        mad[b] := Some(stat.value.1);
      }
    }
  }

  // centres[good], med[good], mad[good]
  function Collected(edges: seq<real>, med: seq<Option<real>>, mad: seq<Option<real>>, upTo: nat): seq<Knot>
    requires upTo <= |med| == |mad| < |edges|
  {
    if upTo == 0 then []
    else
      var m, d := med[upTo - 1], mad[upTo - 1];
      Collected(edges, med, mad, upTo - 1) +
      if m.Some? && d.Some? then [Knot(Centre(edges, upTo - 1), m.value, d.value)] else []
  }

  lemma {:induction false} CollectedIsKnots(stats: Stats, edges: seq<real>, med: seq<Option<real>>, mad: seq<Option<real>>, upTo: nat)
    requires upTo <= |med| == |mad| < |edges|
    requires forall b :: 0 <= b < |med| ==> Holds(med[b], mad[b], stats(b))
    ensures Collected(edges, med, mad, upTo) == Knots(stats, edges, upTo)
  {
    if upTo > 0 {
      CollectedIsKnots(stats, edges, med, mad, upTo - 1);
      assert Holds(med[upTo - 1], mad[upTo - 1], stats(upTo - 1));
    }
  }

  method Collect(data: seq<Point>, edges: seq<real>, minPerBin: int, weight: seq<bool>, order: seq<nat>, ghost keep: Keep, ghost stats: Stats)
    returns (good: seq<Knot>)
    requires |edges| >= 2 && SortsBins(order, Bins(data, edges)) && Specifies(stats, data, edges, minPerBin, keep)
    requires |weight| == |data| && forall i :: 0 <= i < |data| ==> weight[i] == keep(data[i])
    ensures good == Knots(stats, edges, |edges| - 1)
  {
    var med, mad := BinTrend(data, edges, minPerBin, weight, order, keep, stats);
    good := Collected(edges, med[..], mad[..], |edges| - 1);
    CollectedIsKnots(stats, edges, med[..], mad[..], |edges| - 1);
  }

  method Good(data: seq<Point>, edges: seq<real>, minPerBin: int, weight: seq<bool>, order: seq<nat>, ghost keep: Keep)
    returns (good: seq<Knot>)
    requires |edges| >= 2 && SortsBins(order, Bins(data, edges))
    requires |weight| == |data| && forall i :: 0 <= i < |data| ==> weight[i] == keep(data[i])
    ensures good == AllKnots(data, edges, minPerBin, keep)
  {
    good := Collect(data, edges, minPerBin, weight, order, keep, StatsOf(data, edges, minPerBin, keep));
  }

  // ---- both passes ----

  const MAX_PASSES := 2

  method RadialDetrend(r: seq<real>, v: seq<real>, nBins: nat, minPerBin: int, order: seq<nat>)
    returns (res: Result<seq<real>, string>)
    requires |r| == |v| && r != [] && nBins > 0 ==>
               SortsBins(order, Bins(Points(r, v), Edges(Low(Points(r, v)), High(Points(r, v)), nBins)))
    ensures res.Err? <==> |r| != |v|
    ensures res.Ok? ==> |res.value| == |v|
    ensures res.Ok? ==> forall i :: 0 <= i < |v| ==> res.value[i] == ZScore(Points(r, v), nBins, minPerBin, Points(r, v)[i])
  {
    if |r| != |v| {
      return Err("r shape does not match v shape");
    }
    if r == [] {
      return Ok([]);
    }
    var data := Points(r, v);
    var lo, hi := Low(data), High(data);
    if hi <= lo || nBins == 0 {
      return Ok(seq(|v|, _ => 0.0));
    }
    var edges := Edges(lo, hi, nBins);
    var z := Passes(data, edges, minPerBin, order);
    return Ok(z);
  }

  function Scores(data: seq<Point>, ks: seq<Knot>): (z: seq<real>)
    requires ks != []
    ensures |z| == |data| && forall i :: 0 <= i < |data| ==> z[i] == Score(ks, data[i])
  {
    seq(|data|, i requires 0 <= i < |data| => Score(ks, data[i]))
  }

  function Weights(data: seq<Point>, keep: Keep): (w: seq<bool>)
    ensures |w| == |data| && forall i :: 0 <= i < |data| ==> w[i] == keep(data[i])
  {
    seq(|data|, i requires 0 <= i < |data| => keep(data[i]))
  }

  // z and the weight it leaves for the next pass.
  method Rescore(data: seq<Point>, good: seq<Knot>) returns (z: seq<real>, weight: seq<bool>)
    requires good != []
    ensures z == Scores(data, good) && weight == Weights(data, Unflagged(good))
  {
    z := Scores(data, good);
    weight := seq(|data|, i requires 0 <= i < |data| => Abs(z[i]) <= REFINE_Z);
  }

  method Passes(data: seq<Point>, edges: seq<real>, minPerBin: int, order: seq<nat>) returns (z: seq<real>)
    requires |edges| >= 2 && SortsBins(order, Bins(data, edges))
    ensures |z| == |data| && forall i :: 0 <= i < |data| ==> z[i] == Binned(data, edges, minPerBin, data[i])
  {
    var n := |data|;
    ghost var first, keep := AllKnots(data, edges, minPerBin, Everyone()), Everyone();
    var weight := seq(n, _ => true);
    z := seq(n, _ => 0.0);
    var pass := 0;
    while pass < MAX_PASSES
      invariant weight == Weights(data, keep)
      invariant |z| == n && 0 <= pass <= MAX_PASSES
      invariant pass == 0 ==> keep == Everyone()
      invariant pass > 0 ==> first != [] && !AllKept(data, Unflagged(first))
      invariant pass == 1 ==> keep == Unflagged(first)
      invariant pass == 2 ==> var second := AllKnots(data, edges, minPerBin, Unflagged(first)); second != [] && z == Scores(data, second)
    {
      var good := Good(data, edges, minPerBin, weight, order, keep);
      if good == [] {
        z := seq(n, _ => 0.0);
        return;
      }
      var newWeight;
      z, newWeight := Rescore(data, good);
      if newWeight == weight {
        break;
      }
      weight := newWeight;
      keep := Unflagged(good);
      pass := pass + 1;
    }
  }
}
