/** d1-trace: reachable relatives. */
module Trace {
  // core/extensions/d1-trace/index.js. Only steps onto samples the caller may read count. A row names a sample
  // and the reached nodes it is linked from.

  import opened Wrappers

  type Node = string

  datatype Row = Row(sample: Node, prev: seq<Node>)

  // ---- the listed graph ----

  ghost predicate Edge(rows: seq<Row>, a: Node, b: Node) {
    exists i :: 0 <= i < |rows| && rows[i].sample == b && a in rows[i].prev
  }

  // A walk along listed edges.
  ghost predicate Walk(rows: seq<Row>, p: seq<Node>) {
    p != [] && forall i :: 0 <= i < |p| - 1 ==> Edge(rows, p[i], p[i + 1])
  }

  // Everything after the start may be read.
  ghost predicate Readable(p: seq<Node>, ok: set<Node>) {
    forall i :: 0 < i < |p| ==> p[i] in ok
  }

  predicate Listed(rows: seq<Row>, n: Node) {
    exists i :: 0 <= i < |rows| && rows[i].sample == n
  }

  // The root, and after a cut the steps that were cut from the list.
  ghost predicate Start(root: Node, rows: seq<Row>, truncated: bool, n: Node) {
    n == root || (truncated && !Listed(rows, n) && exists b :: Edge(rows, n, b))
  }

  ghost predicate ReadablyReached(root: Node, rows: seq<Row>, ok: set<Node>, truncated: bool, n: Node) {
    exists p :: Walk(rows, p) && Readable(p, ok) && Start(root, rows, truncated, p[0]) && p[|p| - 1] == n
  }

  // ---- building the map and walking it ----

  type Next = map<Node, seq<Node>>

  predicate Leads(next: Next, a: Node, b: Node) {
    a in next && b in next[a]
  }

  predicate NoneEmpty(next: Next) {
    forall a :: a in next ==> next[a] != []
  }

  method Link(next: Next, a: Node, b: Node) returns (more: Next)
    requires NoneEmpty(next)
    ensures NoneEmpty(more) && forall x, y :: Leads(more, x, y) <==> Leads(next, x, y) || (x == a && y == b)
  {
    more := next;
    if a !in more {
      more := more[a := []];
    }
    more := more[a := more[a] + [b]];
  }

  // next.get(p).push(r.sample_id) for every p of one row.
  method LinkRow(next: Next, r: Row) returns (more: Next)
    requires NoneEmpty(next)
    ensures NoneEmpty(more) && forall a, b :: Leads(more, a, b) <==> Leads(next, a, b) || (b == r.sample && a in r.prev)
  {
    more := next;
    for j := 0 to |r.prev|
      invariant NoneEmpty(more) && forall a, b :: Leads(more, a, b) <==> Leads(next, a, b) || (b == r.sample && a in r.prev[..j])
    {
      more := Link(more, r.prev[j], r.sample);
      assert r.prev[..j + 1] == r.prev[..j] + [r.prev[j]];
    }
    assert r.prev[..|r.prev|] == r.prev;
  }

  method BuildNext(rows: seq<Row>) returns (next: Next)
    ensures forall a, b :: Leads(next, a, b) <==> Edge(rows, a, b)
    ensures forall a :: a in next <==> exists b :: Edge(rows, a, b)
  {
    next := map[];
    for i := 0 to |rows|
      invariant NoneEmpty(next) && forall a, b :: Leads(next, a, b) <==> Edge(rows[..i], a, b)
    {
      next := LinkRow(next, rows[i]);
      EdgesGrow(rows, i);
    }
    assert rows[..|rows|] == rows;
    assert forall a :: a in next ==> Leads(next, a, next[a][0]);
  }

  lemma EdgesGrow(rows: seq<Row>, i: nat)
    requires i < |rows|
    ensures forall a, b :: Edge(rows[..i + 1], a, b) <==> Edge(rows[..i], a, b) || (b == rows[i].sample && a in rows[i].prev)
  {
    var less, more := rows[..i], rows[..i + 1];
    forall a, b
      ensures Edge(more, a, b) <==> Edge(less, a, b) || (b == rows[i].sample && a in rows[i].prev)
    {
      if k :| 0 <= k < |less| && less[k].sample == b && a in less[k].prev {
        assert more[k] == less[k];
      }
      if k :| 0 <= k < |more| && more[k].sample == b && a in more[k].prev {
        assert k < i ==> less[k] == more[k];
      }
      assert more[i] == rows[i];
    }
  }

  lemma StartIsReached(root: Node, rows: seq<Row>, ok: set<Node>, truncated: bool, n: Node)
    requires Start(root, rows, truncated, n)
    ensures ReadablyReached(root, rows, ok, truncated, n)
  {
    assert Walk(rows, [n]) && Readable([n], ok) && [n][0] == n;
  }

  lemma StepIsReached(root: Node, rows: seq<Row>, ok: set<Node>, truncated: bool, a: Node, b: Node)
    requires ReadablyReached(root, rows, ok, truncated, a) && Edge(rows, a, b) && b in ok
    ensures ReadablyReached(root, rows, ok, truncated, b)
  {
    var p :| Walk(rows, p) && Readable(p, ok) && Start(root, rows, truncated, p[0]) && p[|p| - 1] == a;
    var q := p + [b];
    forall i | 0 <= i < |q| - 1
      ensures Edge(rows, q[i], q[i + 1])
    {
      assert i < |p| - 1 ==> Edge(rows, p[i], p[i + 1]);
    }
    assert Walk(rows, q) && Readable(q, ok) && q[0] == p[0];
  }

  lemma WithoutLast(rows: seq<Row>, p: seq<Node>)
    requires Walk(rows, p) && |p| > 1
    ensures Walk(rows, p[..|p| - 1]) && Edge(rows, p[|p| - 2], p[|p| - 1])
  {
    var init := p[..|p| - 1];
    forall i | 0 <= i < |init| - 1
      ensures Edge(rows, init[i], init[i + 1])
    {
      assert Edge(rows, p[i], p[i + 1]);
    }
    assert Edge(rows, p[|p| - 2], p[|p| - 2 + 1]);
  }

  // A set that holds the starts and is closed under readable steps holds every readable walk.
  lemma {:induction false} ClosedHoldsWalk(root: Node, rows: seq<Row>, ok: set<Node>, truncated: bool, seen: set<Node>, p: seq<Node>)
    requires forall n :: Start(root, rows, truncated, n) ==> n in seen
    requires forall a, b :: a in seen && Edge(rows, a, b) && b in ok ==> b in seen
    requires Walk(rows, p) && Readable(p, ok) && Start(root, rows, truncated, p[0])
    ensures p[|p| - 1] in seen
  {
    if |p| > 1 {
      WithoutLast(rows, p);
      ClosedHoldsWalk(root, rows, ok, truncated, seen, p[..|p| - 1]);
    }
  }

  // One node of the queue: its readable, unseen successors join the seen and the queue.
  method Expand(successors: seq<Node>, ok: set<Node>, seen: set<Node>, queue: seq<Node>) returns (seen': set<Node>, queue': seq<Node>)
    ensures forall n :: n in seen' <==> n in seen || (n in successors && n in ok)
    ensures forall n :: n in queue' <==> n in queue || (n in seen' && n !in seen)
    ensures seen' == seen ==> queue' == queue
  {
    seen', queue' := seen, queue;
    for i := 0 to |successors|
      invariant forall n :: n in seen' <==> n in seen || (n in successors[..i] && n in ok)
      invariant forall n :: n in queue' <==> n in queue || (n in seen' && n !in seen)
      invariant seen' == seen ==> queue' == queue
    {
      assert successors[..i + 1] == successors[..i] + [successors[i]];
      var c := successors[i];
      if c !in seen' && c in ok {
        seen' := seen' + {c};
        queue' := queue' + [c];
      }
    }
    assert successors[..|successors|] == successors;
  }

  // The nodes the walk starts from.
  method Seeds(root: Node, rows: seq<Row>, next: Next, truncated: bool) returns (seen: set<Node>, queue: seq<Node>)
    requires forall a :: a in next <==> exists b :: Edge(rows, a, b)
    ensures forall n :: n in seen <==> Start(root, rows, truncated, n)
    ensures forall n :: n in queue <==> n in seen
  {
    seen, queue := {root}, [root];
    if truncated {
      var left := next.Keys;
      while left != {}
        invariant left <= next.Keys
        invariant forall n :: n in seen <==> n == root || (n in next && n !in left && !Listed(rows, n))
        invariant forall n :: n in queue <==> n in seen
      {
        var p :| p in left;
        left := left - {p};
        if p != root && !Listed(rows, p) {
          seen := seen + {p};
          queue := queue + [p];
        }
      }
    }
  }

  method Reachable(root: Node, rows: seq<Row>, ok: set<Node>, truncated: bool) returns (seen: set<Node>)
    ensures forall n :: n in seen <==> ReadablyReached(root, rows, ok, truncated, n)
  {
    var next := BuildNext(rows);
    var queue;
    seen, queue := Seeds(root, rows, next, truncated);
    ghost var everything := seen + ok;
    forall n | n in seen
      ensures ReadablyReached(root, rows, ok, truncated, n)
    {
      StartIsReached(root, rows, ok, truncated, n);
    }
    while queue != []
      invariant forall n :: Start(root, rows, truncated, n) ==> n in seen
      invariant forall n :: n in queue ==> n in seen
      invariant forall n :: n in seen ==> ReadablyReached(root, rows, ok, truncated, n)
      invariant forall a, b :: a in seen && a !in queue && Leads(next, a, b) && b in ok ==> b in seen
      invariant seen <= everything
      decreases everything - seen, |queue|
    {
      var head := queue[0];
      ghost var was := seen;
      var rest := queue[1..];
      assert forall n :: n in queue <==> n == head || n in rest;
      seen, queue := Expand(if head in next then next[head] else [], ok, seen, rest);
      forall n | n in seen && n !in was
        ensures ReadablyReached(root, rows, ok, truncated, n)
      {
        assert Leads(next, head, n);
        StepIsReached(root, rows, ok, truncated, head, n);
      }
      assert was <= seen;
    }
    forall n | ReadablyReached(root, rows, ok, truncated, n)
      ensures n in seen
    {
      var p :| Walk(rows, p) && Readable(p, ok) && Start(root, rows, truncated, p[0]) && p[|p| - 1] == n;
      ClosedHoldsWalk(root, rows, ok, truncated, seen, p);
    }
  }

  // ---- the rows shown ----

  datatype Shown = Shown(row: Row, throughHidden: bool, from: Option<Node>)

  function FirstIn(s: seq<Node>, reach: set<Node>): (f: Option<Node>)
    ensures f.Some? ==> exists i :: 0 <= i < |s| && s[i] == f.value && s[i] in reach && forall j :: 0 <= j < i ==> s[j] !in reach
    ensures f.None? ==> forall n :: n in s ==> n !in reach
  {
    if s == [] then None
    else if s[0] in reach then Some(s[0])
    else
      var f := FirstIn(s[1..], reach);
      assert f.Some? ==> forall i :: 0 <= i < |s[1..]| ==> s[1..][i] == s[i + 1];
      f
  }

  function ShownRow(r: Row, reach: set<Node>): Shown {
    if r.sample in reach then Shown(r, false, FirstIn(r.prev, reach)) else Shown(r, true, None)
  }

  // The readable rows, in order.
  function ShownRows(rows: seq<Row>, ok: set<Node>, reach: set<Node>): (shown: seq<Shown>)
    ensures |shown| <= |rows|
    ensures forall s :: s in shown ==> s.row in rows && s.row.sample in ok && s == ShownRow(s.row, reach)
    ensures forall i :: 0 <= i < |rows| && rows[i].sample in ok ==> ShownRow(rows[i], reach) in shown
  {
    if rows == [] then []
    else
      var before := ShownRows(rows[..|rows| - 1], ok, reach);
      var r := rows[|rows| - 1];
      if r.sample in ok then before + [ShownRow(r, reach)] else before
  }

  method Lineage(root: Node, rows: seq<Row>, ok: set<Node>, truncated: bool) returns (shown: seq<Shown>, hidden: nat, ghost reach: set<Node>)
    ensures forall n :: n in reach <==> ReadablyReached(root, rows, ok, truncated, n)
    ensures shown == ShownRows(rows, ok, reach) && |shown| + hidden == |rows|
  {
    var seen := Reachable(root, rows, ok, truncated);
    reach := seen;
    shown, hidden := [], 0;
    for i := 0 to |rows|
      invariant shown == ShownRows(rows[..i], ok, seen) && |shown| + hidden == i
    {
      assert rows[..i + 1][..i] == rows[..i];
      var r := rows[i];
      if r.sample !in ok {
        hidden := hidden + 1;
      } else {
        var through := r.sample !in seen;
        var from := if through then None else FirstIn(r.prev, seen);
        shown := shown + [Shown(r, through, from)];
      }
    }
    assert rows[..|rows|] == rows;
  }

  // The rows keep their order: what is shown of two lists, one after the other, is shown of both.
  lemma {:induction false} ShownInOrder(a: seq<Row>, b: seq<Row>, ok: set<Node>, reach: set<Node>)
    ensures ShownRows(a + b, ok, reach) == ShownRows(a, ok, reach) + ShownRows(b, ok, reach)
  {
    if b == [] {
      assert a + b == a;
    } else {
      assert (a + b)[..|a + b| - 1] == a + b[..|b| - 1];
      ShownInOrder(a, b[..|b| - 1], ok, reach);
    }
  }

  // A readable row of a complete list is marked as reached through a hidden sample exactly when every
  // listed walk from the root to it passes one.
  lemma ThroughHiddenExactly(root: Node, rows: seq<Row>, ok: set<Node>, reach: set<Node>, r: Row)
    requires forall n :: n in reach <==> ReadablyReached(root, rows, ok, false, n)
    ensures ShownRow(r, reach).throughHidden <==>
            forall p :: Walk(rows, p) && p[0] == root && p[|p| - 1] == r.sample ==> exists i :: 0 < i < |p| && p[i] !in ok
  {
    if r.sample in reach {
      var p :| Walk(rows, p) && Readable(p, ok) && Start(root, rows, false, p[0]) && p[|p| - 1] == r.sample;
    } else {
      forall p | Walk(rows, p) && p[0] == root && p[|p| - 1] == r.sample
        ensures exists i :: 0 < i < |p| && p[i] !in ok
      {
        assert !Readable(p, ok);
      }
    }
  }

  // Every other row has a reached predecessor to read its edge from.
  lemma ReachedHasPredecessor(root: Node, rows: seq<Row>, ok: set<Node>, truncated: bool, reach: set<Node>, i: nat)
    requires forall n :: n in reach <==> ReadablyReached(root, rows, ok, truncated, n)
    requires forall j, k :: 0 <= j < k < |rows| ==> rows[j].sample != rows[k].sample
    requires i < |rows| && rows[i].sample != root && rows[i].sample in reach
    ensures ShownRow(rows[i], reach).from.Some?
  {
    var n := rows[i].sample;
    var p :| Walk(rows, p) && Readable(p, ok) && Start(root, rows, truncated, p[0]) && p[|p| - 1] == n;
    assert |p| > 1;
    var init := p[..|p| - 1];
    var a := p[|p| - 2];
    WithoutLast(rows, p);
    assert Readable(init, ok) && init[0] == p[0] && init[|init| - 1] == a;
    assert a in rows[i].prev && a in reach;
  }

  // After a cut, a readable row whose step was cut is never marked as hidden.
  lemma CutStepIsNotHidden(root: Node, rows: seq<Row>, ok: set<Node>, reach: set<Node>, i: nat, step: Node)
    requires forall n :: n in reach <==> ReadablyReached(root, rows, ok, true, n)
    requires i < |rows| && rows[i].sample in ok && step in rows[i].prev && !Listed(rows, step)
    ensures !ShownRow(rows[i], reach).throughHidden
  {
    assert Edge(rows, step, rows[i].sample);
    StartIsReached(root, rows, ok, true, step);
    StepIsReached(root, rows, ok, true, step, rows[i].sample);
  }

  // ---- the cap on events ----

  const MAX_ROWS := 500

  // Undated events carry no date; they are listed last and rank as the oldest.
  datatype Event = Event(date: Option<int>, id: string)

  // a is at least as new as b.
  predicate NoOlder(a: Event, b: Event) {
    b.date.None? || (a.date.Some? && a.date.value >= b.date.value)
  }

  // Oldest first, undated last.
  predicate ListedOldestFirst(events: seq<Event>) {
    forall i, j :: 0 <= i < j < |events| ==>
      events[j].date.None? || (events[i].date.Some? && events[i].date.value <= events[j].date.value)
  }

  lemma LastIsOldest(events: seq<Event>, e: Event)
    requires ListedOldestFirst(events) && events != [] && events[|events| - 1].date.None?
    ensures NoOlder(e, events[|events| - 1])
  {
  }

  lemma FirstIsOldest(events: seq<Event>, e: Event)
    requires ListedOldestFirst(events) && events != [] && events[|events| - 1].date.Some? && e in events
    ensures NoOlder(e, events[0])
  {
    var i :| 0 <= i < |events| && events[i] == e;
    assert i < |events| - 1 ==> events[i].date.Some?;
    assert 0 < i ==> events[0].date.value <= events[i].date.value;
  }

  // One event too many: the one dropped is the oldest, an undated one before any dated one.
  method CapEvents(events: seq<Event>) returns (kept: seq<Event>, cut: bool, ghost dropped: seq<Event>)
    requires ListedOldestFirst(events) && |events| <= MAX_ROWS + 1
    ensures cut <==> |events| > 500
    ensures |dropped| == if cut then 1 else 0
    ensures events == kept + dropped || events == dropped + kept
    ensures cut ==> forall e :: e in kept ==> NoOlder(e, dropped[0])
    ensures |kept| <= 500 && ListedOldestFirst(kept)
  {
    kept, cut, dropped := events, |events| > MAX_ROWS, [];
    if cut {
      if events[|events| - 1].date.None? {
        kept, dropped := events[..MAX_ROWS], events[MAX_ROWS..];
        forall e | e in kept
          ensures NoOlder(e, dropped[0])
        {
          LastIsOldest(events, e);
        }
      } else {
        kept, dropped := events[1..], events[..1];
        forall e | e in kept
          ensures NoOlder(e, dropped[0])
        {
          FirstIsOldest(events, e);
        }
      }
    }
  }
}
