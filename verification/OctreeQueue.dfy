/** The octree build queue. */
module OctreeQueue {
  // scripts/force_orchestrator.py: discover, claim_octree, handle_octrees and process_octree_row, with the crop
  // editor and the build button of ForceDashboard.vue. There is one row per recorded file, and an operation can
  // have several; what is published is one directory per operation. Any number of workers and pages act in any
  // order.

  import opened Indices
  import opened Wrappers

  type Id = nat
  type Operation = nat
  type Worker = nat

  // The crop override columns; absent means NULL.
  datatype Crop = Crop(from: Option<int>, to: Option<int>)

  datatype Status = Unrequested | Pending | Processing | Done | Failed

  datatype Row = Row(operation: Operation, status: Status, crop: Crop)

  // What a directory holds: the file of one row, cut as it was when that row was claimed.
  datatype Octree = Octree(row: Id, crop: Crop)

  // A claimed row: the crop it was claimed with, and whether its build has replaced the published octree.
  datatype Job = Job(row: Id, crop: Crop, published: bool)

  // A worker builds its jobs in order.
  datatype State = State(rows: map<Id, Row>, published: map<Operation, Octree>, jobs: map<Worker, seq<Job>>)

  const LIMIT := 2

  datatype Event =
    | Discover(id: Id, operation: Operation)
    | Claim(worker: Worker, ids: seq<Id>)
    | Publish(worker: Worker)
    | Finish(worker: Worker)
    | Fail(worker: Worker)
    | Crash(worker: Worker)
    | Edit(id: Id, crop: Crop, seen: Status)   // saving a crop, from a page that last read the row as `seen`
    | Request(id: Id)                          // the build button, or the enqueueing of rows never built

  function Jobs(s: State, w: Worker): seq<Job> {
    if w in s.jobs then s.jobs[w] else []
  }

  predicate Enabled(s: State, e: Event) {
    match e
    case Discover(id, _) => id !in s.rows
    case Claim(w, ids) =>
      && Jobs(s, w) == [] && 0 < |ids| <= LIMIT && Distinct(ids)
      && forall i :: 0 <= i < |ids| ==> ids[i] in s.rows && s.rows[ids[i]].status == Pending
    case Publish(w) => Jobs(s, w) != [] && Jobs(s, w)[0].row in s.rows && !Jobs(s, w)[0].published
    case Finish(w) => Jobs(s, w) != [] && Jobs(s, w)[0].row in s.rows && Jobs(s, w)[0].published
    case Fail(w) => Jobs(s, w) != [] && Jobs(s, w)[0].row in s.rows
    case Crash(w) => Jobs(s, w) != []
    case Edit(id, _, _) => id in s.rows
    case Request(id) => id in s.rows
  }

  // The editor re-queues what it sees finished, well or badly.
  predicate Requeues(seen: Status) {
    seen == Done || seen == Failed
  }

  function Claimed(rows: map<Id, Row>, ids: seq<Id>): map<Id, Row> {
    map id | id in rows :: if id in ids then rows[id].(status := Processing) else rows[id]
  }

  function NewJobs(rows: map<Id, Row>, ids: seq<Id>): (jobs: seq<Job>)
    requires forall i :: 0 <= i < |ids| ==> ids[i] in rows
    ensures |jobs| == |ids| && forall i :: 0 <= i < |jobs| ==> jobs[i] == Job(ids[i], rows[ids[i]].crop, false)
  {
    seq(|ids|, i requires 0 <= i < |ids| => Job(ids[i], rows[ids[i]].crop, false))
  }

  function Built(s: State, j: Job): State
    requires j.row in s.rows
  {
    s.(published := s.published[s.rows[j.row].operation := Octree(j.row, j.crop)])
  }

  // The final UPDATE: back to pending when the row's crop is no longer the one claimed.
  function Settled(s: State, j: Job): State
    requires j.row in s.rows
  {
    var row := s.rows[j.row];
    s.(rows := s.rows[j.row := row.(status := if row.crop != j.crop then Pending else Done)])
  }

  function Step(s: State, e: Event): State
    requires Enabled(s, e)
  {
    match e
    case Discover(id, operation) => s.(rows := s.rows[id := Row(operation, Unrequested, Crop(None, None))])
    case Claim(w, ids) => s.(rows := Claimed(s.rows, ids), jobs := s.jobs[w := NewJobs(s.rows, ids)])
    case Publish(w) =>
      var jobs := Jobs(s, w);
      Built(s, jobs[0]).(jobs := s.jobs[w := [jobs[0].(published := true)] + jobs[1..]])
    case Finish(w) => Settled(s, Jobs(s, w)[0]).(jobs := s.jobs[w := Jobs(s, w)[1..]])
    case Fail(w) =>
      var id := Jobs(s, w)[0].row;
      s.(rows := s.rows[id := s.rows[id].(status := Failed)], jobs := s.jobs[w := Jobs(s, w)[1..]])
    case Crash(w) => s.(jobs := s.jobs[w := []])
    case Edit(id, crop, seen) =>
      var row := s.rows[id];
      s.(rows := s.rows[id := row.(crop := crop, status := if Requeues(seen) then Pending else row.status)])
    case Request(id) => s.(rows := s.rows[id := s.rows[id].(status := Pending)])
  }

  // What a viewer of a finished row relies on: its operation's directory holds this row, with the crop it has.
  predicate Current(s: State, id: Id)
    requires id in s.rows
  {
    var row := s.rows[id];
    row.status == Done ==> row.operation in s.published && s.published[row.operation] == Octree(id, row.crop)
  }

  ghost predicate AllCurrent(s: State) {
    forall id :: id in s.rows ==> Current(s, id)
  }

  // ---- the exact condition of a step ----

  // Every finished row of the operation is the one being published, and has the crop it was built with.
  ghost predicate ReplacesOnlyItself(s: State, j: Job)
    requires j.row in s.rows
  {
    forall id :: id in s.rows && s.rows[id].operation == s.rows[j.row].operation && s.rows[id].status == Done ==>
      id == j.row && s.rows[id].crop == j.crop
  }

  // The directory still holds what this build put there.
  predicate StillPublished(s: State, j: Job)
    requires j.row in s.rows
  {
    var operation := s.rows[j.row].operation;
    operation in s.published && s.published[operation] == Octree(j.row, j.crop)
  }

  // A finished row's crop is changed only from a page that re-queues it.
  predicate EditIsSeen(s: State, e: Event)
    requires e.Edit? && e.id in s.rows
  {
    s.rows[e.id].status == Done && e.crop != s.rows[e.id].crop ==> Requeues(e.seen)
  }

  ghost predicate Harmless(s: State, e: Event)
    requires Enabled(s, e)
  {
    match e
    case Publish(w) => ReplacesOnlyItself(s, Jobs(s, w)[0])
    case Finish(w) => s.rows[Jobs(s, w)[0].row].crop == Jobs(s, w)[0].crop ==> StillPublished(s, Jobs(s, w)[0])
    case Edit(_, _, _) => EditIsSeen(s, e)
    case _ => true
  }

  lemma PublishKeepsCurrentExactly(s: State, w: Worker)
    requires AllCurrent(s) && Enabled(s, Publish(w))
    ensures AllCurrent(Step(s, Publish(w))) <==> ReplacesOnlyItself(s, Jobs(s, w)[0])
  {
    var t, j := Step(s, Publish(w)), Jobs(s, w)[0];
    assert t.rows == s.rows;
    forall id | id in s.rows
      ensures Current(t, id) <==>
        (s.rows[id].operation == s.rows[j.row].operation && s.rows[id].status == Done ==> id == j.row && s.rows[id].crop == j.crop)
    {
      assert Current(s, id);
    }
  }

  // Only one row changes, so the others are as current as they were.
  lemma OneRowChanged(s: State, t: State, id: Id)
    requires AllCurrent(s) && id in t.rows && t.published == s.published
    requires forall i :: i in t.rows && i != id ==> i in s.rows && t.rows[i] == s.rows[i]
    ensures AllCurrent(t) <==> Current(t, id)
  {
    forall i | i in t.rows && i != id
      ensures Current(t, i)
    {
      assert Current(s, i);
    }
  }

  // A row that is claimed or not finished is current.
  lemma UnfinishedIsCurrent(s: State, t: State)
    requires AllCurrent(s) && t.published == s.published
    requires forall i :: i in t.rows ==> t.rows[i].status != Done || (i in s.rows && t.rows[i] == s.rows[i])
    ensures AllCurrent(t)
  {
    forall i | i in t.rows
      ensures Current(t, i)
    {
      if t.rows[i].status == Done {
        assert Current(s, i);
      }
    }
  }

  // Of a state in which every finished row shows its own octree, a step leaves such a state if and only if
  // it is harmless.
  lemma StepKeepsCurrentExactly(s: State, e: Event)
    requires AllCurrent(s) && Enabled(s, e)
    ensures AllCurrent(Step(s, e)) <==> Harmless(s, e)
  {
    var t := Step(s, e);
    match e
    case Publish(w) =>
      PublishKeepsCurrentExactly(s, w);
    case Finish(w) =>
      OneRowChanged(s, t, Jobs(s, w)[0].row);
    case Edit(id, _, _) =>
      OneRowChanged(s, t, id);
      assert Current(s, id);
    case Claim(_, _) =>
      UnfinishedIsCurrent(s, t);
    case _ =>
      UnfinishedIsCurrent(s, t);
  }

  // ---- runs ----

  ghost predicate Run(states: seq<State>, events: seq<Event>) {
    && |states| == |events| + 1
    && forall i :: 0 <= i < |events| ==> Enabled(states[i], events[i]) && states[i + 1] == Step(states[i], events[i])
  }

  // Over every interleaving: finished rows show their own octree throughout if and only if every step is harmless.
  lemma {:induction false} RunIsCurrentExactly(states: seq<State>, events: seq<Event>)
    requires Run(states, events) && AllCurrent(states[0])
    ensures (forall i :: 0 <= i < |states| ==> AllCurrent(states[i])) <==>
      (forall i :: 0 <= i < |events| ==> Harmless(states[i], events[i]))
  {
    if forall i :: 0 <= i < |states| ==> AllCurrent(states[i]) {
      forall i | 0 <= i < |events|
        ensures Harmless(states[i], events[i])
      {
        assert AllCurrent(states[i]) && AllCurrent(states[i + 1]);
        StepKeepsCurrentExactly(states[i], events[i]);
      }
    } else if forall i :: 0 <= i < |events| ==> Harmless(states[i], events[i]) {
      forall i | 0 <= i < |states|
        ensures AllCurrent(states[i])
      {
        HarmlessSoFar(states, events, i);
      }
    }
  }

  lemma {:induction false} HarmlessSoFar(states: seq<State>, events: seq<Event>, n: nat)
    requires Run(states, events) && AllCurrent(states[0]) && n < |states|
    requires forall i :: 0 <= i < n ==> Harmless(states[i], events[i])
    ensures AllCurrent(states[n])
  {
    if n > 0 {
      HarmlessSoFar(states, events, n - 1);
      StepKeepsCurrentExactly(states[n - 1], events[n - 1]);
    }
  }

  // ---- what a request comes to ----

  // Requested, claimed by an idle worker and built while nothing else happens: the row is finished and shows
  // its own octree as it is cut now, and the worker is idle again.
  lemma RequestIsServed(s: State, w: Worker, id: Id)
    requires id in s.rows && Jobs(s, w) == []
    ensures Enabled(s, Request(id))
    ensures var a := Step(s, Request(id));
            Enabled(a, Claim(w, [id])) && var b := Step(a, Claim(w, [id]));
            Enabled(b, Publish(w)) && var c := Step(b, Publish(w));
            Enabled(c, Finish(w)) && var t := Step(c, Finish(w));
            && t.rows == s.rows[id := s.rows[id].(status := Done)]
            && t.published == s.published[s.rows[id].operation := Octree(id, s.rows[id].crop)]
            && Jobs(t, w) == []
  {
    var a := Step(s, Request(id));
    var b := Step(a, Claim(w, [id]));
    assert b.rows == a.rows[id := a.rows[id].(status := Processing)];
    var c := Step(b, Publish(w));
    var t := Step(c, Finish(w));
    assert t.rows == s.rows[id := s.rows[id].(status := Done)];
  }

  // A crop saved during the build sends the row back to the queue, with the new crop.
  lemma EditedMeanwhile(s: State, w: Worker)
    requires Enabled(s, Finish(w)) && s.rows[Jobs(s, w)[0].row].crop != Jobs(s, w)[0].crop
    ensures var id, t := Jobs(s, w)[0].row, Step(s, Finish(w));
            id in t.rows && t.rows[id] == s.rows[id].(status := Pending) && t.published == s.published
  {
  }

  // A build that fails is shown as failed and, unless it had published, leaves the directory alone.
  lemma FailedIsShown(s: State, w: Worker)
    requires Enabled(s, Fail(w))
    ensures var id, t := Jobs(s, w)[0].row, Step(s, Fail(w));
            id in t.rows && t.rows[id] == s.rows[id].(status := Failed) && t.published == s.published && Jobs(t, w) == Jobs(s, w)[1..]
  {
  }

  const EMPTY := State(map[], map[], map[])

  // ---- one worker ----

  // Its jobs are distinct rows, none of them finished; only the first may be published, and then it still is.
  ghost predicate JobsInOrder(s: State, jobs: seq<Job>) {
    && (forall i :: 0 <= i < |jobs| ==> jobs[i].row in s.rows && s.rows[jobs[i].row].status != Done)
    && (forall i, j :: 0 <= i < j < |jobs| ==> jobs[i].row != jobs[j].row)
    && (forall i :: 0 < i < |jobs| ==> !jobs[i].published)
    && (jobs != [] && jobs[0].published ==> StillPublished(s, jobs[0]))
  }

  ghost predicate OneWorker(s: State, w: Worker) {
    JobsInOrder(s, Jobs(s, w)) && forall v :: v != w ==> Jobs(s, v) == []
  }

  predicate ClaimedBy(e: Event, w: Worker) {
    e.Claim? ==> e.worker == w
  }

  lemma OneWorkerStep(s: State, e: Event, w: Worker)
    requires OneWorker(s, w) && Enabled(s, e) && ClaimedBy(e, w)
    ensures OneWorker(Step(s, e), w)
  {
    var t := Step(s, e);
    forall v | v != w
      ensures Jobs(t, v) == []
    {
      assert Jobs(s, v) == [];
    }
    match e
    case Finish(_) =>
      OthersKeepOrder(s, t, Jobs(s, w)[0].row, Jobs(s, w), Jobs(s, w)[1..]);
    case Fail(_) =>
      OthersKeepOrder(s, t, Jobs(s, w)[0].row, Jobs(s, w), Jobs(s, w)[1..]);
    case _ =>
  }

  lemma OthersKeepOrder(s: State, t: State, id: Id, jobs: seq<Job>, rest: seq<Job>)
    requires JobsInOrder(s, jobs) && jobs != [] && jobs[0].row == id && rest == jobs[1..]
    requires forall i :: i in s.rows && i != id ==> i in t.rows && t.rows[i] == s.rows[i]
    ensures JobsInOrder(t, rest)
  {
    forall i | 0 <= i < |rest|
      ensures rest[i].row in t.rows && t.rows[rest[i].row].status != Done && !rest[i].published
    {
      assert rest[i] == jobs[i + 1] && jobs[0].row != jobs[i + 1].row;
    }
  }

  // No finished row of the operation but the one being built.
  ghost predicate Alone(s: State, j: Job)
    requires j.row in s.rows
  {
    forall id :: id in s.rows && id != j.row && s.rows[id].operation == s.rows[j.row].operation ==> s.rows[id].status != Done
  }

  ghost predicate Careful(s: State, e: Event)
    requires Enabled(s, e)
  {
    (e.Publish? ==> Alone(s, Jobs(s, e.worker)[0])) && (e.Edit? ==> EditIsSeen(s, e))
  }

  // With one worker nothing can go wrong but a shared directory and an outdated page.
  lemma OneWorkerIsHarmlessExactly(s: State, e: Event, w: Worker)
    requires OneWorker(s, w) && Enabled(s, e)
    ensures Harmless(s, e) <==> Careful(s, e)
  {
    if e.Publish? || e.Finish? {
      assert e.worker == w;
    }
  }

  lemma {:induction false} OneWorkerSoFar(states: seq<State>, events: seq<Event>, w: Worker, n: nat)
    requires Run(states, events) && states[0] == EMPTY && n < |states|
    requires forall i :: 0 <= i < n ==> ClaimedBy(events[i], w)
    ensures OneWorker(states[n], w)
  {
    if n > 0 {
      OneWorkerSoFar(states, events, w, n - 1);
      OneWorkerStep(states[n - 1], events[n - 1], w);
    }
  }

  /**
   A single worker, whatever is requested, edited or crashes meanwhile: finished rows show their own octree
   throughout if and only if no build replaces the directory of another finished row and no outdated page
   changes a finished row's crop.
   */
  lemma OneWorkerRun(states: seq<State>, events: seq<Event>, w: Worker)
    requires Run(states, events) && states[0] == EMPTY
    requires forall i :: 0 <= i < |events| ==> ClaimedBy(events[i], w)
    ensures (forall i :: 0 <= i < |states| ==> AllCurrent(states[i])) <==>
      (forall i :: 0 <= i < |events| ==> Careful(states[i], events[i]))
  {
    RunIsCurrentExactly(states, events);
    forall i | 0 <= i < |events|
      ensures Harmless(states[i], events[i]) <==> Careful(states[i], events[i])
    {
      OneWorkerSoFar(states, events, w, i);
      OneWorkerIsHarmlessExactly(states[i], events[i], w);
    }
  }

  // ---- one row per operation ----

  ghost predicate OneRowEach(s: State) {
    forall a, b :: a in s.rows && b in s.rows && s.rows[a].operation == s.rows[b].operation ==> a == b
  }

  // Rows are never removed and keep their operation.
  lemma {:induction false} RowsStay(states: seq<State>, events: seq<Event>, i: nat, n: nat)
    requires Run(states, events) && i <= n < |states|
    ensures forall id :: id in states[i].rows ==> id in states[n].rows && states[n].rows[id].operation == states[i].rows[id].operation
    decreases n - i
  {
    if i < n {
      RowsStay(states, events, i + 1, n);
      StepKeepsRows(states[i], events[i]);
    }
  }

  lemma StepKeepsRows(s: State, e: Event)
    requires Enabled(s, e)
    ensures forall id :: id in s.rows ==> id in Step(s, e).rows && Step(s, e).rows[id].operation == s.rows[id].operation
  {
  }

  lemma OneRowEachBefore(states: seq<State>, events: seq<Event>, i: nat, n: nat)
    requires Run(states, events) && i <= n < |states| && OneRowEach(states[n])
    ensures OneRowEach(states[i])
  {
    RowsStay(states, events, i, n);
    forall a, b | a in states[i].rows && b in states[i].rows && states[i].rows[a].operation == states[i].rows[b].operation
      ensures a == b
    {
      assert a in states[n].rows && b in states[n].rows;
    }
  }

  // So with one worker and one row per operation only an outdated page can go wrong.
  lemma OneRowEachRun(states: seq<State>, events: seq<Event>, w: Worker)
    requires Run(states, events) && states[0] == EMPTY && OneRowEach(states[|events|])
    requires forall i :: 0 <= i < |events| ==> ClaimedBy(events[i], w)
    ensures (forall i :: 0 <= i < |states| ==> AllCurrent(states[i])) <==>
      (forall i :: 0 <= i < |events| && events[i].Edit? ==> EditIsSeen(states[i], events[i]))
  {
    OneWorkerRun(states, events, w);
    forall i | 0 <= i < |events|
      ensures Careful(states[i], events[i]) <==> (events[i].Edit? ==> EditIsSeen(states[i], events[i]))
    {
      OneRowEachBefore(states, events, i, |events|);
    }
  }

  // ---- any number of workers ----

  predicate BeingProcessed(s: State, id: Id) {
    id in s.rows && s.rows[id].status == Processing
  }

  // Each job's row is being processed, for that job alone, and what it published is still there.
  ghost predicate Exclusive(s: State) {
    && (forall w, i :: 0 <= i < |Jobs(s, w)| ==> BeingProcessed(s, Jobs(s, w)[i].row))
    && (forall w, i, v, j :: 0 <= i < |Jobs(s, w)| && 0 <= j < |Jobs(s, v)| && Jobs(s, w)[i].row == Jobs(s, v)[j].row ==> w == v && i == j)
    && (forall w, i :: 0 < i < |Jobs(s, w)| ==> !Jobs(s, w)[i].published)
    && (forall w :: Jobs(s, w) != [] && Jobs(s, w)[0].published ==> StillPublished(s, Jobs(s, w)[0]))
  }

  // Pages are up to date on whether the row is finished, and nobody requests a build under way.
  predicate Attentive(s: State, e: Event)
    requires Enabled(s, e)
  {
    match e
    case Edit(id, _, seen) => Requeues(seen) == Requeues(s.rows[id].status)
    case Request(id) => s.rows[id].status != Processing
    case _ => true
  }

  lemma ClaimKeepsExclusive(s: State, w: Worker, ids: seq<Id>)
    requires Exclusive(s) && Enabled(s, Claim(w, ids))
    ensures Exclusive(Step(s, Claim(w, ids)))
  {
    var t := Step(s, Claim(w, ids));
    forall v
      ensures Jobs(t, v) == if v == w then NewJobs(s.rows, ids) else Jobs(s, v)
    {
    }
    forall v, i | 0 <= i < |Jobs(t, v)|
      ensures BeingProcessed(t, Jobs(t, v)[i].row) && (v == w || Jobs(t, v)[i].row !in ids)
    {
      if v == w {
        assert ids[i] in ids && t.rows[ids[i]] == s.rows[ids[i]].(status := Processing);
      } else {
        assert BeingProcessed(s, Jobs(s, v)[i].row);
      }
    }
    forall u, i, v, j | 0 <= i < |Jobs(t, u)| && 0 <= j < |Jobs(t, v)| && Jobs(t, u)[i].row == Jobs(t, v)[j].row
      ensures u == v && i == j
    {
      if u == w && v == w {
        assert ids[i] == ids[j];
      }
    }
  }

  lemma PublishKeepsExclusive(s: State, w: Worker)
    requires Exclusive(s) && OneRowEach(s) && Enabled(s, Publish(w))
    ensures Exclusive(Step(s, Publish(w)))
  {
    var t, j := Step(s, Publish(w)), Jobs(s, w)[0];
    forall v, i | 0 <= i < |Jobs(t, v)|
      ensures 0 <= i < |Jobs(s, v)| && Jobs(t, v)[i].row == Jobs(s, v)[i].row
      ensures v != w ==> Jobs(t, v) == Jobs(s, v)
    {
    }
    forall v | Jobs(t, v) != [] && Jobs(t, v)[0].published
      ensures StillPublished(t, Jobs(t, v)[0])
    {
      if v != w {
        assert Jobs(s, v)[0].row != j.row;
      }
    }
  }

  // A step that touches one row, and takes that row's job away or has none to take.
  lemma OneRowKeepsExclusive(s: State, t: State, id: Id)
    requires Exclusive(s) && t.published == s.published
    requires forall i :: i in s.rows && i != id ==> i in t.rows && t.rows[i] == s.rows[i]
    requires forall v :: Jobs(t, v) == Jobs(s, v) || (Jobs(s, v) != [] && Jobs(t, v) == Jobs(s, v)[1..])
    requires forall v, i :: 0 <= i < |Jobs(t, v)| ==> Jobs(t, v)[i].row != id
    ensures Exclusive(t)
  {
    forall v, i | 0 <= i < |Jobs(t, v)|
      ensures BeingProcessed(t, Jobs(t, v)[i].row) && (i > 0 ==> !Jobs(t, v)[i].published)
    {
      assert Jobs(t, v)[i] == Jobs(s, v)[i + |Jobs(s, v)| - |Jobs(t, v)|];
    }
    forall v, i, w, j | 0 <= i < |Jobs(t, v)| && 0 <= j < |Jobs(t, w)| && Jobs(t, v)[i].row == Jobs(t, w)[j].row
      ensures v == w && i == j
    {
      assert Jobs(t, v)[i] == Jobs(s, v)[i + |Jobs(s, v)| - |Jobs(t, v)|];
      assert Jobs(t, w)[j] == Jobs(s, w)[j + |Jobs(s, w)| - |Jobs(t, w)|];
    }
    forall v | Jobs(t, v) != [] && Jobs(t, v)[0].published
      ensures StillPublished(t, Jobs(t, v)[0])
    {
      assert Jobs(t, v) == Jobs(s, v);
    }
  }

  lemma CrashKeepsExclusive(s: State, w: Worker)
    requires Exclusive(s) && Enabled(s, Crash(w))
    ensures Exclusive(Step(s, Crash(w)))
  {
    var t := Step(s, Crash(w));
    forall v
      ensures Jobs(t, v) == if v == w then [] else Jobs(s, v)
    {
    }
  }

  // A row being built keeps its status: a page that is up to date re-queues only finished rows.
  lemma EditKeepsExclusive(s: State, id: Id, crop: Crop, seen: Status)
    requires Exclusive(s) && Enabled(s, Edit(id, crop, seen)) && Attentive(s, Edit(id, crop, seen))
    ensures Exclusive(Step(s, Edit(id, crop, seen)))
  {
    var t := Step(s, Edit(id, crop, seen));
    assert forall v :: Jobs(t, v) == Jobs(s, v);
    forall i | i in s.rows
      ensures i in t.rows && t.rows[i].operation == s.rows[i].operation
      ensures s.rows[i].status == Processing ==> t.rows[i].status == Processing
    {
    }
  }

  lemma AttentiveStep(s: State, e: Event)
    requires Exclusive(s) && OneRowEach(s) && Enabled(s, e) && Attentive(s, e)
    ensures Exclusive(Step(s, e)) && Harmless(s, e)
  {
    var t := Step(s, e);
    match e
    case Discover(id, _) =>
      OneRowKeepsExclusive(s, t, id);
    case Claim(w, ids) =>
      ClaimKeepsExclusive(s, w, ids);
    case Publish(w) =>
      PublishKeepsExclusive(s, w);
    case Finish(w) =>
      OneRowKeepsExclusive(s, t, Jobs(s, w)[0].row);
    case Fail(w) =>
      OneRowKeepsExclusive(s, t, Jobs(s, w)[0].row);
    case Crash(w) =>
      CrashKeepsExclusive(s, w);
    case Edit(id, crop, seen) =>
      EditKeepsExclusive(s, id, crop, seen);
    case Request(id) =>
      OneRowKeepsExclusive(s, t, id);
  }

  lemma {:induction false} AttentiveSoFar(states: seq<State>, events: seq<Event>, n: nat)
    requires Run(states, events) && states[0] == EMPTY && n < |states| && OneRowEach(states[|events|])
    requires forall i :: 0 <= i < n ==> Attentive(states[i], events[i])
    ensures Exclusive(states[n])
  {
    if n > 0 {
      AttentiveSoFar(states, events, n - 1);
      OneRowEachBefore(states, events, n - 1, |events|);
      AttentiveStep(states[n - 1], events[n - 1]);
    }
  }

  // With one row per operation the status column alone keeps builds apart, however many workers claim, as long
  // as pages are up to date and nobody requests a build under way.
  lemma AttentiveRun(states: seq<State>, events: seq<Event>)
    requires Run(states, events) && states[0] == EMPTY && OneRowEach(states[|events|])
    requires forall i :: 0 <= i < |events| ==> Attentive(states[i], events[i])
    ensures forall i :: 0 <= i < |states| ==> AllCurrent(states[i])
  {
    forall i | 0 <= i < |events|
      ensures Harmless(states[i], events[i])
    {
      AttentiveSoFar(states, events, i);
      OneRowEachBefore(states, events, i, |events|);
      AttentiveStep(states[i], events[i]);
    }
    RunIsCurrentExactly(states, events);
  }

  // ---- where it fails ----

  const WHOLE := Crop(None, None)
  const CUT := Crop(Some(100), Some(900))

  // A run from the empty table to `last`.
  ghost predicate Reaches(states: seq<State>, events: seq<Event>, last: State) {
    Run(states, events) && states[0] == EMPTY && states[|events|] == last
  }

  lemma StartsEmpty() returns (states: seq<State>, events: seq<Event>)
    ensures Reaches(states, events, EMPTY) && events == []
  {
    states, events := [EMPTY], [];
  }

  lemma OneMore(states: seq<State>, events: seq<Event>, s: State, e: Event) returns (states': seq<State>, events': seq<Event>, t: State)
    requires Reaches(states, events, s) && Enabled(s, e)
    ensures t == Step(s, e) && Reaches(states', events', t) && states' == states + [t] && events' == events + [e]
  {
    t := Step(s, e);
    states', events' := states + [t], events + [e];
  }

  // A new row, requested.
  lemma Asked(states: seq<State>, events: seq<Event>, s: State, id: Id, operation: Operation)
    returns (states': seq<State>, events': seq<Event>, t: State)
    requires Reaches(states, events, s) && id !in s.rows
    ensures Reaches(states', events', t) && events' == events + [Discover(id, operation), Request(id)]
    ensures t == s.(rows := s.rows[id := Row(operation, Pending, WHOLE)])
  {
    var u;
    states', events', u := OneMore(states, events, s, Discover(id, operation));
    states', events', t := OneMore(states', events', u, Request(id));
    assert t.rows == s.rows[id := Row(operation, Pending, WHOLE)];
  }

  lemma ClaimTaken(states: seq<State>, events: seq<Event>, s: State, w: Worker, ids: seq<Id>)
    returns (states': seq<State>, events': seq<Event>, t: State)
    requires Reaches(states, events, s) && Enabled(s, Claim(w, ids))
    ensures Reaches(states', events', t) && states' == states + [t] && events' == events + [Claim(w, ids)]
    ensures t.rows == Claimed(s.rows, ids) && t.published == s.published && t.jobs == s.jobs[w := NewJobs(s.rows, ids)]
  {
    states', events', t := OneMore(states, events, s, Claim(w, ids));
  }

  // The first job of a worker published and finished, the row's crop being the one claimed.
  lemma BuildDone(states: seq<State>, events: seq<Event>, s: State, w: Worker)
    returns (states': seq<State>, events': seq<Event>, t: State)
    requires Reaches(states, events, s) && Enabled(s, Publish(w)) && s.rows[Jobs(s, w)[0].row].crop == Jobs(s, w)[0].crop
    ensures Reaches(states', events', t) && |states'| == |states| + 2 && states <= states' && events' == events + [Publish(w), Finish(w)]
    ensures var j := Jobs(s, w)[0];
      && t.rows == s.rows[j.row := s.rows[j.row].(status := Done)]
      && t.published == s.published[s.rows[j.row].operation := Octree(j.row, j.crop)]
      && t.jobs == s.jobs[w := Jobs(s, w)[1..]]
  {
    var u;
    states', events', u := OneMore(states, events, s, Publish(w));
    assert Jobs(u, w)[1..] == Jobs(s, w)[1..];
    states', events', t := OneMore(states', events', u, Finish(w));
    assert t.jobs == s.jobs[w := Jobs(s, w)[1..]];
  }

  // A finished row whose directory another build replaces is not current.
  lemma Replaced(states: seq<State>, events: seq<Event>, s: State, w: Worker, id: Id)
    returns (states': seq<State>, events': seq<Event>, t: State)
    requires Reaches(states, events, s) && Enabled(s, Publish(w)) && id in s.rows && s.rows[id].status == Done
    requires var j := Jobs(s, w)[0];
      s.rows[id].operation == s.rows[j.row].operation && Octree(id, s.rows[id].crop) != Octree(j.row, j.crop)
    ensures Reaches(states', events', t) && states' == states + [t] && events' == events + [Publish(w)]
    ensures t.rows == s.rows && !AllCurrent(t)
  {
    states', events', t := OneMore(states, events, s, Publish(w));
    assert !Current(t, id);
  }

  // Two files of one operation, both requested and claimed by one call of worker 0.
  lemma PairClaimed() returns (states: seq<State>, events: seq<Event>, s: State)
    ensures Reaches(states, events, s)
    ensures events == [Discover(0, 7), Request(0), Discover(1, 7), Request(1), Claim(0, [0, 1])]
    ensures s.rows.Keys == {0, 1} && s.rows[0] == s.rows[1] == Row(7, Processing, WHOLE)
    ensures Jobs(s, 0) == [Job(0, WHOLE, false), Job(1, WHOLE, false)]
  {
    states, events := StartsEmpty();
    states, events, s := Asked(states, events, EMPTY, 0, 7);
    states, events, s := Asked(states, events, s, 1, 7);
    states, events, s := ClaimTaken(states, events, s, 0, [0, 1]);
  }

  // One file, requested and claimed by worker 0.
  lemma SingleClaimed() returns (states: seq<State>, events: seq<Event>, s: State)
    ensures Reaches(states, events, s) && events == [Discover(0, 7), Request(0), Claim(0, [0])]
    ensures s.rows.Keys == {0} && s.rows[0] == Row(7, Processing, WHOLE)
    ensures Jobs(s, 0) == [Job(0, WHOLE, false)] && forall w :: w != 0 ==> Jobs(s, w) == []
  {
    states, events := StartsEmpty();
    states, events, s := Asked(states, events, EMPTY, 0, 7);
    states, events, s := ClaimTaken(states, events, s, 0, [0]);
  }

  // One worker and no edit at all: the second file replaces the first one's octree, and the first row goes on
  // saying that it is done.
  lemma SharedDirectoryBreaks() returns (states: seq<State>, events: seq<Event>)
    ensures Run(states, events) && states[0] == EMPTY && !AllCurrent(states[|events|])
    ensures events == [Discover(0, 7), Request(0), Discover(1, 7), Request(1), Claim(0, [0, 1]), Publish(0), Finish(0), Publish(0)]
  {
    var s;
    states, events, s := PairClaimed();
    states, events, s := BuildDone(states, events, s, 0);
    states, events, s := Replaced(states, events, s, 0, 0);
  }

  // One worker, one row: a page that still shows the row as pending saves a crop over the finished octree, and
  // nothing re-queues it.
  lemma StalePageBreaks() returns (states: seq<State>, events: seq<Event>)
    ensures Run(states, events) && states[0] == EMPTY && !AllCurrent(states[|events|]) && OneRowEach(states[|events|])
    ensures events == [Discover(0, 7), Request(0), Claim(0, [0]), Publish(0), Finish(0), Edit(0, CUT, Pending)]
  {
    var s;
    states, events, s := SingleClaimed();
    states, events, s := BuildDone(states, events, s, 0);
    states, events, s := OneMore(states, events, s, Edit(0, CUT, Pending));
    assert !Current(s, 0);
  }

  // Two workers, one row, the page up to date: the build button has the row claimed again, and the slower build,
  // of the old crop, replaces the octree of the row that is done.
  lemma SecondClaimBreaks() returns (states: seq<State>, events: seq<Event>)
    ensures Run(states, events) && states[0] == EMPTY && !AllCurrent(states[|events|]) && OneRowEach(states[|events|])
    ensures events == [Discover(0, 7), Request(0), Claim(0, [0]), Edit(0, CUT, Processing), Request(0), Claim(1, [0]), Publish(1), Finish(1), Publish(0)]
    ensures states[3].rows[0].status == Processing
  {
    var s;
    states, events, s := SingleClaimed();
    assert states[3] == s && Jobs(s, 1) == [];
    states, events, s := AskedAgain(states, events, s, 0, CUT);
    states, events, s := ClaimTaken(states, events, s, 1, [0]);
    states, events, s := BuildDone(states, events, s, 1);
    states, events, s := Replaced(states, events, s, 0, 0);
  }

  // A crop saved from a page that shows the row as being processed, and the build button.
  lemma AskedAgain(states: seq<State>, events: seq<Event>, s: State, id: Id, crop: Crop)
    returns (states': seq<State>, events': seq<Event>, t: State)
    requires Reaches(states, events, s) && id in s.rows && s.rows[id].status == Processing
    ensures Reaches(states', events', t) && states <= states' && events' == events + [Edit(id, crop, Processing), Request(id)]
    ensures t == s.(rows := s.rows[id := s.rows[id].(crop := crop, status := Pending)])
  {
    var u;
    states', events', u := OneMore(states, events, s, Edit(id, crop, Processing));
    states', events', t := OneMore(states', events', u, Request(id));
    assert t.rows == s.rows[id := s.rows[id].(crop := crop, status := Pending)];
  }

  // ---- the worker's methods ----

  class Database {
    var state: State

    constructor ()
      ensures state == EMPTY
    {
      state := EMPTY;
    }

    // One call claims up to two pending rows, whatever operations they belong to.
    method ClaimOctree(worker: Worker) returns (claimed: seq<Job>)
      requires Jobs(state, worker) == []
      modifies this
      ensures forall i :: 0 <= i < |claimed| ==>
                claimed[i].row in old(state).rows && old(state).rows[claimed[i].row].status == Pending &&
                claimed[i] == Job(claimed[i].row, old(state).rows[claimed[i].row].crop, false)
      ensures |claimed| < 2 ==> forall id :: id in state.rows ==> state.rows[id].status != Pending
      ensures claimed == [] ==> state == old(state)
      ensures claimed != [] ==> Enabled(old(state), Claim(worker, Rows(claimed))) && state == Step(old(state), Claim(worker, Rows(claimed)))
    {
      var pending := set id | id in state.rows && state.rows[id].status == Pending;
      var ids: seq<Id> := [];
      while pending != {} && |ids| < LIMIT
        invariant |ids| <= LIMIT && Distinct(ids)
        invariant forall id :: id in state.rows && state.rows[id].status == Pending <==> id in pending || id in ids
        invariant forall id :: id in pending ==> id !in ids
        decreases LIMIT - |ids|
      {
        var id :| id in pending;
        pending := pending - {id};
        ids := ids + [id];
      }
      claimed := NewJobs(state.rows, ids);
      assert Rows(claimed) == ids;
      if ids != [] {
        state := state.(rows := Claimed(state.rows, ids), jobs := state.jobs[worker := claimed]);
      }
    }

    // The final UPDATE: its CASE compares the row's crop with the one its job was claimed with.
    method FinishOctree(worker: Worker)
      requires Enabled(state, Finish(worker))
      modifies this
      ensures state == Step(old(state), Finish(worker))
      ensures var j := Jobs(old(state), worker)[0];
        state.rows[j.row].status == if old(state).rows[j.row].crop == j.crop then Done else Pending
    {
      var j := Jobs(state, worker)[0];
      var row := state.rows[j.row];
      var status := if row.crop.from != j.crop.from || row.crop.to != j.crop.to then Pending else Done;
      state := state.(rows := state.rows[j.row := row.(status := status)], jobs := state.jobs[worker := Jobs(state, worker)[1..]]);
    }
  }

  function Rows(jobs: seq<Job>): (ids: seq<Id>)
    ensures |ids| == |jobs| && forall i :: 0 <= i < |ids| ==> ids[i] == jobs[i].row
  {
    seq(|jobs|, i requires 0 <= i < |jobs| => jobs[i].row)
  }
}
