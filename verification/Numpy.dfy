/** The numpy primitives the numeric modules rest on, over the reals. */
module Numpy {
  // Largest j with xp[j] <= x.
  function LastAtMost(x: real, xp: seq<real>): (j: nat)
    requires xp != [] && xp[0] <= x
    ensures j < |xp| && xp[j] <= x
    ensures forall k :: j < k < |xp| ==> x < xp[k]
  {
    if xp[|xp| - 1] <= x then |xp| - 1 else LastAtMost(x, xp[..|xp| - 1])
  }

  // np.interp: constant beyond the knots, linear between xp[j] <= x < xp[j + 1].
  function Interp(x: real, xp: seq<real>, fp: seq<real>): real
    requires |xp| == |fp| > 0
  {
    if x < xp[0] then fp[0]
    else
      var j := LastAtMost(x, xp);
      if j == |xp| - 1 then fp[j]
      else fp[j] + (x - xp[j]) / (xp[j + 1] - xp[j]) * (fp[j + 1] - fp[j])
  }

  // It passes through the knots.
  lemma InterpAtKnot(xp: seq<real>, fp: seq<real>, i: nat)
    requires |xp| == |fp| && i < |xp| && forall j, k :: 0 <= j < k < |xp| ==> xp[j] < xp[k]
    ensures Interp(xp[i], xp, fp) == fp[i]
  {
    assert 0 < i ==> xp[0] < xp[i];
    assert LastAtMost(xp[i], xp) == i;
    if i < |xp| - 1 {
      NoRise(xp[i] - xp[i], xp[i + 1] - xp[i], fp[i + 1] - fp[i]);
    }
  }

  lemma NoRise(run: real, w: real, h: real)
    requires run == 0.0 && w > 0.0
    ensures run / w * h == 0.0
  {
    assert run / w == 0.0;
  }

  // (x, y) lies on the straight line through (x0, y0) and (x1, y1).
  predicate OnChord(x0: real, y0: real, x1: real, y1: real, x: real, y: real) {
    (y - y0) * (x1 - x0) == (y1 - y0) * (x - x0)
  }

  lemma ChordPoint(x0: real, y0: real, x1: real, y1: real, x: real, q: real, rise: real)
    requires x0 < x1 && q == (x - x0) / (x1 - x0) && rise == q * (y1 - y0)
    ensures OnChord(x0, y0, x1, y1, x, y0 + rise)
  {
    Crossed(x - x0, x1 - x0, y1 - y0, q, rise);
    assert y0 + rise - y0 == rise;
  }

  lemma Crossed(run: real, w: real, h: real, q: real, rise: real)
    requires w > 0.0 && q == run / w && rise == q * h
    ensures rise * w == h * run
  {
    assert q * w == run;
    assert rise * w == h * (q * w);
  }

  // Between two knots it lies on the straight line through them.
  lemma InterpOnChord(x: real, xp: seq<real>, fp: seq<real>, j: nat)
    requires |xp| == |fp| && j + 1 < |xp| && forall i, k :: 0 <= i < k < |xp| ==> xp[i] <= xp[k]
    requires xp[j] <= x < xp[j + 1]
    ensures OnChord(xp[j], fp[j], xp[j + 1], fp[j + 1], x, Interp(x, xp, fp))
  {
    var q := (x - xp[j]) / (xp[j + 1] - xp[j]);
    ChordPoint(xp[j], fp[j], xp[j + 1], fp[j + 1], x, q, q * (fp[j + 1] - fp[j]));
    InterpBetween(x, xp, fp, j);
  }

  lemma InterpBetween(x: real, xp: seq<real>, fp: seq<real>, j: nat)
    requires |xp| == |fp| && j + 1 < |xp| && forall i, k :: 0 <= i < k < |xp| ==> xp[i] <= xp[k]
    requires xp[j] <= x < xp[j + 1]
    ensures Interp(x, xp, fp) == fp[j] + (x - xp[j]) / (xp[j + 1] - xp[j]) * (fp[j + 1] - fp[j])
  {
    assert 0 < j ==> xp[0] <= xp[j];
    assert LastAtMost(x, xp) == j;
  }

  // Between the outer knots it reproduces every straight line.
  lemma InterpOnLine(x: real, xp: seq<real>, fp: seq<real>, a: real, b: real)
    requires |xp| == |fp| > 0 && xp[0] <= x <= xp[|xp| - 1]
    requires forall j :: 0 <= j < |xp| ==> fp[j] == a * xp[j] + b
    ensures Interp(x, xp, fp) == a * x + b
  {
    var j := LastAtMost(x, xp);
    if j < |xp| - 1 {
      OnSegment(x, xp[j], xp[j + 1], a, b);
    }
  }

  lemma OnSegment(x: real, left: real, right: real, a: real, b: real)
    requires left < right
    ensures a * left + b + (x - left) / (right - left) * (a * right + b - (a * left + b)) == a * x + b
  {
    var q, w := (x - left) / (right - left), right - left;
    assert q * w == x - left;
    assert a * right + b - (a * left + b) == a * w;
    assert q * (a * w) == a * (q * w);
  }

  // round(): to the nearest integer, halves to even.
  function Round(x: real): int {
    var f := x.Floor;
    var d := x - f as real;
    if d < 0.5 then f else if d > 0.5 then f + 1 else if f % 2 == 0 then f else f + 1
  }

  lemma RoundMonotone(x: real, y: real)
    requires x <= y
    ensures Round(x) <= Round(y)
  {
    if x.Floor < y.Floor {
      assert Round(x) <= x.Floor + 1 <= y.Floor;
    }
  }

  // No integer is nearer, and of two equally near ones it is the even one.
  lemma RoundIsNearest(x: real, m: int)
    ensures -0.5 <= x - Round(x) as real <= 0.5
    ensures m as real - 0.5 < x < m as real + 0.5 ==> Round(x) == m
    ensures x == m as real + 0.5 ==> Round(x) % 2 == 0
  {
    if m as real - 0.5 < x < m as real + 0.5 {
      assert x.Floor == m || x.Floor == m - 1;
    } else if x == m as real + 0.5 {
      assert x.Floor == m;
    }
  }

  lemma RoundInteger(n: int)
    ensures Round(n as real) == n
  {
  }

  function Sum(s: seq<real>): real {
    if s == [] then 0.0 else Sum(s[..|s| - 1]) + s[|s| - 1]
  }

  lemma {:induction false} SumOfZeros(s: seq<real>)
    requires forall i :: 0 <= i < |s| ==> s[i] == 0.0
    ensures Sum(s) == 0.0
  {
    if s != [] {
      SumOfZeros(s[..|s| - 1]);
    }
  }

  // Every term counts once.
  lemma {:induction false} SumCountsEach(s: seq<real>, i: nat, h: real)
    requires i < |s|
    ensures Sum(s[i := s[i] + h]) == Sum(s) + h
  {
    var t := s[i := s[i] + h];
    if i < |s| - 1 {
      assert t[..|s| - 1] == s[..|s| - 1][i := s[i] + h];
      SumCountsEach(s[..|s| - 1], i, h);
    } else {
      assert t[..|s| - 1] == s[..|s| - 1];
    }
  }
}
