/** The diagnostics queue. */
module DiagQueue {
  // scripts/force_orchestrator.py. claim_diag also takes back finished rows of an older version or never baked
  // by the recipe engine. With it, the stride of process_diag_row.

  import opened Arith
  import opened Indices
  import opened Wrappers

  const DIAG_VERSION := 10

  datatype Status = Unrequested | Pending | Processing | Done | Failed

  datatype Row = Row(status: Status, version: Option<int>, hash: Option<string>, requested: Option<int>)

  type Table = map<nat, Row>

  predicate Stale(r: Row) {
    r.status == Done && (r.version == None || r.version.value < DIAG_VERSION || r.hash == None)
  }

  predicate Claimable(r: Row) {
    r.status == Pending || Stale(r)
  }

  // A row that needs no more work.
  predicate Settled(r: Row) {
    r.status == Failed || (r.status == Done && r.version == Some(DIAG_VERSION) && r.hash.Some?)
  }

  // A finished row is left alone if and only if it was baked by the recipe engine at version 10 or later.
  lemma DoneIsLeftAlone(t: Table, id: nat)
    requires id in t && t[id].status == Done
    ensures id !in Waiting(t) <==> t[id].version.Some? && t[id].version.value >= 10 && t[id].hash.Some?
  {
  }

  function Waiting(t: Table): set<nat> {
    set id | id in t && Claimable(t[id])
  }

  // ---- any interleaving of workers ----

  datatype Event = Claim(id: nat) | Finish(id: nat, hash: string) | Fail(id: nat)

  predicate Enabled(t: Table, e: Event) {
    match e
    case Claim(id) => id in t && Claimable(t[id])
    case Finish(id, _) => id in t && t[id].status == Processing
    case Fail(id) => id in t && t[id].status == Processing
  }

  function Step(t: Table, e: Event): Table
    requires Enabled(t, e)
  {
    match e
    case Claim(id) => t[id := t[id].(status := Processing)]
    case Finish(id, hash) => t[id := t[id].(status := Done, version := Some(DIAG_VERSION), hash := Some(hash))]
    case Fail(id) => t[id := t[id].(status := Failed)]
  }

  ghost predicate Run(t: Table, events: seq<Event>, last: Table) {
    if events == [] then t == last
    else Enabled(t, events[0]) && Run(Step(t, events[0]), events[1..], last)
  }

  function Claims(events: seq<Event>, id: nat): nat {
    if events == [] then 0 else (if events[0] == Claim(id) then 1 else 0) + Claims(events[1..], id)
  }

  function AllClaims(events: seq<Event>): nat {
    if events == [] then 0 else (if events[0].Claim? then 1 else 0) + AllClaims(events[1..])
  }

  // A claim takes one row out of the waiting set for good; no other step puts one in.
  lemma StepShrinksWaiting(t: Table, e: Event)
    requires Enabled(t, e)
    ensures Waiting(Step(t, e)) == Waiting(t) - (if e.Claim? then {e.id} else {})
    ensures e.Claim? ==> e.id in Waiting(t)
  {
    if !e.Claim? {
      assert !Claimable(t[e.id]) && !Claimable(Step(t, e)[e.id]);
    }
  }

  // Without outside writes each row is claimed at most once, and only if it was waiting.
  lemma {:induction false} ClaimedAtMostOnce(t: Table, events: seq<Event>, last: Table, id: nat)
    requires Run(t, events, last)
    ensures Claims(events, id) == if id in Waiting(t) && id !in Waiting(last) then 1 else 0
    ensures Waiting(last) <= Waiting(t)
  {
    if events != [] {
      StepShrinksWaiting(t, events[0]);
      ClaimedAtMostOnce(Step(t, events[0]), events[1..], last, id);
    }
  }

  // So a run has exactly as many claims as the waiting set has lost rows: the queue cannot loop.
  lemma {:induction false} ClaimsAreBounded(t: Table, events: seq<Event>, last: Table)
    requires Run(t, events, last)
    ensures AllClaims(events) == |Waiting(t)| - |Waiting(last)|
  {
    if events != [] {
      StepShrinksWaiting(t, events[0]);
      ClaimsAreBounded(Step(t, events[0]), events[1..], last);
    }
  }

  // How a row is left once nobody waits and nobody works: every row that was waiting or under way has
  // settled, every other row is as it was.
  lemma {:induction false} EndsSettled(t: Table, events: seq<Event>, last: Table, id: nat)
    requires Run(t, events, last) && id in t
    requires Waiting(last) == {} && forall i :: i in last ==> last[i].status != Processing
    ensures id in last
    ensures if Claimable(t[id]) || t[id].status == Processing then Settled(last[id]) else last[id] == t[id]
  {
    if events == [] {
      assert Claimable(t[id]) ==> id in Waiting(last);
    } else {
      var next := Step(t, events[0]);
      EndsSettled(next, events[1..], last, id);
      if events[0].id == id && !events[0].Claim? {
        assert Settled(next[id]);
      }
    }
  }

  // ---- the daemon's own loop ----

  // ORDER BY diag_requested_at NULLS FIRST
  predicate Earlier(a: Row, b: Row) {
    b.requested.Some? && (a.requested.None? || a.requested.value < b.requested.value)
  }

  // Rows that were never given a time come first, then the smaller time; rows of one time in any order.
  lemma EarlierMeans(a: Row, b: Row)
    ensures a.requested.None? && b.requested.Some? ==> Earlier(a, b)
    ensures a.requested.Some? && b.requested.Some? ==> (Earlier(a, b) <==> a.requested.value < b.requested.value)
    ensures b.requested.None? ==> !Earlier(a, b)
  {
  }

  // What baking a claimed row comes to: its hash, or none when it fails.
  type Bake = nat -> Option<string>

  class Queue {
    var rows: Table

    constructor (rows: Table)
      ensures this.rows == rows
    {
      this.rows := rows;
    }

    method ClaimDiag() returns (claimed: Option<nat>)
      modifies this
      ensures claimed.None? <==> Waiting(old(rows)) == {}
      ensures claimed.None? ==> rows == old(rows)
      ensures claimed.Some? ==> Enabled(old(rows), Claim(claimed.value)) && rows == Step(old(rows), Claim(claimed.value))
      ensures claimed.Some? ==> forall id :: id in Waiting(old(rows)) ==> !Earlier(old(rows)[id], old(rows)[claimed.value])
    {
      var left := Waiting(rows);
      if left == {} {
        return None;
      }
      var best :| best in left;
      left := left - {best};
      while left != {}
        invariant best in Waiting(rows) && left <= Waiting(rows)
        invariant forall id :: id in Waiting(rows) && id !in left ==> !Earlier(rows[id], rows[best])
      {
        var id :| id in left;
        left := left - {id};
        if Earlier(rows[id], rows[best]) {
          best := id;
        }
      }
      rows := rows[best := rows[best].(status := Processing)];
      return Some(best);
    }

    method ProcessDiagRow(id: nat, bake: Bake) returns (done: bool)
      requires id in rows && rows[id].status == Processing
      modifies this
      ensures done == bake(id).Some?
      ensures rows == Step(old(rows), if done then Finish(id, bake(id).value) else Fail(id))
    {
      var hash := bake(id);
      done := hash.Some?;
      if done {
        rows := rows[id := rows[id].(status := Done, version := Some(DIAG_VERSION), hash := hash)];
      } else {
        rows := rows[id := rows[id].(status := Failed)];
      }
    }

    // handle_diags: one row claimed and baked.
    method HandleDiags(bake: Bake) returns (claimed: Option<nat>, done: nat)
      modifies this
      ensures claimed.None? <==> Waiting(old(rows)) == {}
      ensures claimed.None? ==> rows == old(rows) && done == 0
      ensures claimed.Some? ==> claimed.value in Waiting(old(rows)) && Waiting(rows) == Waiting(old(rows)) - {claimed.value}
      ensures claimed.Some? ==> rows.Keys == old(rows).Keys && Settled(rows[claimed.value])
      ensures claimed.Some? ==> (rows[claimed.value].status == Done <==> bake(claimed.value).Some?)
      ensures claimed.Some? ==> forall i :: i in rows && i != claimed.value ==> rows[i] == old(rows)[i]
      ensures claimed.Some? ==> done == if bake(claimed.value).Some? then 1 else 0
      ensures claimed.Some? ==> forall i :: i in Waiting(old(rows)) ==> !Earlier(old(rows)[i], old(rows)[claimed.value])
    {
      done := 0;
      ghost var was := rows;
      claimed := ClaimDiag();
      if claimed.Some? {
        ghost var mid := rows;
        StepShrinksWaiting(was, Claim(claimed.value));
        var ok := ProcessDiagRow(claimed.value, bake);
        StepShrinksWaiting(mid, if ok then Finish(claimed.value, bake(claimed.value).value) else Fail(claimed.value));
        done := if ok then 1 else 0;
      }
    }

    // The daemon's polling until nothing waits: it ends, each waiting row taken once, the earliest requested
    // first, and settled.
    method Drain(bake: Bake) returns (order: seq<nat>)
      modifies this
      ensures Distinct(order) && Members(order) == Waiting(old(rows)) && Waiting(rows) == {}
      ensures rows.Keys == old(rows).Keys && forall id :: id in rows && id !in order ==> rows[id] == old(rows)[id]
      ensures forall id :: id in order ==> id in rows && Settled(rows[id]) && (rows[id].status == Done <==> bake(id).Some?)
      ensures ByRequest(old(rows), order)
    {
      order := [];
      while true
        invariant DrainedSoFar(old(rows), rows, order, bake)
        decreases Waiting(rows)
      {
        ghost var was := rows;
        var claimed, done := HandleDiags(bake);
        if claimed.None? {
          return;
        }
        DrainedFurther(old(rows), was, rows, order, claimed.value, bake);
        order := order + [claimed.value];
      }
    }
  }

  // No row of the list was requested earlier than one before it,
  predicate ByRequest(was: Table, order: seq<nat>) {
    (forall id :: id in order ==> id in was) && forall a, b :: 0 <= a < b < |order| ==> !Earlier(was[order[b]], was[order[a]])
  }

  // and none of those left than any of the list.
  predicate NoneEarlier(was: Table, order: seq<nat>, left: set<nat>) {
    forall id, other :: id in left && other in order ==> id in was && other in was && !Earlier(was[id], was[other])
  }

  // The waiting rows are those listed and those that still wait.
  ghost predicate Splits(was: Table, rows: Table, order: seq<nat>) {
    Distinct(order) && Members(order) + Waiting(rows) == Waiting(was) && Members(order) !! Waiting(rows)
  }

  ghost predicate DrainedSoFar(was: Table, rows: Table, order: seq<nat>, bake: Bake) {
    Splits(was, rows, order) && Baked(was, rows, order, bake) && InOrder(was, rows, order)
  }

  lemma DrainedFurther(first: Table, was: Table, rows: Table, order: seq<nat>, id: nat, bake: Bake)
    requires DrainedSoFar(first, was, order, bake) && id in Waiting(was) && Waiting(rows) == Waiting(was) - {id}
    requires rows.Keys == was.Keys && forall i :: i in rows && i != id ==> rows[i] == was[i]
    requires Settled(rows[id]) && (rows[id].status == Done <==> bake(id).Some?)
    requires forall i :: i in Waiting(was) ==> !Earlier(was[i], was[id])
    ensures DrainedSoFar(first, rows, order + [id], bake)
  {
    BakedMore(first, was, rows, order, id, bake);
    InOrderMore(first, was, rows, order, id);
    SplitsMore(first, was, rows, order, id);
  }

  lemma SplitsMore(first: Table, was: Table, rows: Table, order: seq<nat>, id: nat)
    requires Splits(first, was, order) && id in Waiting(was) && Waiting(rows) == Waiting(was) - {id}
    ensures Splits(first, rows, order + [id])
  {
    assert id !in Members(order);
    assert Members(order + [id]) == Members(order) + {id};
  }

  // The rows listed are settled as baking them came out, and the others as they were.
  ghost predicate Baked(was: Table, rows: Table, order: seq<nat>, bake: Bake) {
    && rows.Keys == was.Keys && (forall id :: id in rows && id !in order ==> rows[id] == was[id])
    && forall id :: id in order ==> id in rows && Settled(rows[id]) && (rows[id].status == Done <==> bake(id).Some?)
  }

  ghost predicate InOrder(was: Table, rows: Table, order: seq<nat>) {
    ByRequest(was, order) && NoneEarlier(was, order, Waiting(rows)) && forall id :: id in Waiting(rows) ==> id in was && rows[id] == was[id]
  }

  lemma InOrderMore(first: Table, was: Table, rows: Table, order: seq<nat>, id: nat)
    requires InOrder(first, was, order) && id in Waiting(was) && Waiting(rows) == Waiting(was) - {id}
    requires rows.Keys == was.Keys && forall i :: i in rows && i != id ==> rows[i] == was[i]
    requires forall i :: i in Waiting(was) ==> !Earlier(was[i], was[id])
    ensures InOrder(first, rows, order + [id])
  {
  }

  lemma BakedMore(first: Table, was: Table, rows: Table, order: seq<nat>, id: nat, bake: Bake)
    requires Baked(first, was, order, bake) && id in rows && rows.Keys == was.Keys
    requires Settled(rows[id]) && (rows[id].status == Done <==> bake(id).Some?)
    requires forall i :: i in rows && i != id ==> rows[i] == was[i]
    ensures Baked(first, rows, order + [id], bake)
  {
  }

  // ---- the stride of the cached signal ----

  // step = max(1, (n + target - 1) // target)
  function Stride(n: nat, target: nat): nat
    requires target > 0
  {
    var step := (n + target - 1) / target;
    if step < 1 then 1 else step
  }

  // len(x[::step])
  function Kept(n: nat, step: nat): int
    requires step > 0
  {
    (n + step - 1) / step
  }

  lemma CeilingFits(n: nat, s: nat, t: nat)
    requires s > 0
    ensures (n + s - 1) / s <= t <==> n <= t * s
  {
    var q := (n + s - 1) / s;
    assert q * s <= n + s - 1 < q * s + s;
    if q <= t {
      MulMonotone(q, t, s);
    } else {
      MulMonotone(t + 1, q, s);
      assert (t + 1) * s == t * s + s;
    }
  }

  // A step keeps at most `target` samples exactly when it is at least the stride.
  lemma StrideIsLeast(n: nat, target: nat, step: nat)
    requires target > 0 && step > 0
    ensures Kept(n, step) <= target <==> step >= Stride(n, target)
  {
    CeilingFits(n, step, target);
    CeilingFits(n, target, step);
    assert target * step == step * target;
  }
}
