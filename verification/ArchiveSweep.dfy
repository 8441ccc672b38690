/** References to moved files. */
module ArchiveSweep {
  // scripts/index_archive.py. A column is a foreign key to the file table, held as the set of links from its
  // rows (or, for a junction, its parents) to files.

  import opened Wrappers

  type Id = nat

  datatype Link = Link(parent: nat, file: Id)

  // single: a one-column foreign key. junction: rows are unique by (parent, file).
  datatype Fk = Fk(single: bool, junction: bool)

  // Whether the database refuses, as a unique violation, to point a column's links from one file at another.
  type Conflict = (nat, set<Link>, Id, Id) -> bool

  // A column without uniqueness on the file.
  ghost predicate Unconstrained(conflict: Conflict, column: nat) {
    forall links, from, to :: !conflict(column, links, from, to)
  }

  // ---- is_confident_move ----

  // PurePosixPath(rel).name, for a path that does not end in a slash.
  function BaseName(rel: string): (name: string)
    ensures '/' !in name && |name| <= |rel| && rel[|rel| - |name|..] == name
    ensures |name| < |rel| ==> rel[|rel| - |name| - 1] == '/'
  {
    if rel == "" || rel[|rel| - 1] == '/' then "" else BaseName(rel[..|rel| - 1]) + [rel[|rel| - 1]]
  }

  predicate IsConfidentMove(oldName: Option<string>, newRel: string, newMatches: nat, oldCandidates: nat) {
    newMatches == 1 && oldCandidates == 1 && oldName.Some? && oldName.value != "" && oldName.value == BaseName(newRel)
  }

  // ---- repoint_file_references ----

  predicate Refers(links: set<Link>, file: Id) {
    exists l :: l in links && l.file == file
  }

  function Moved(links: set<Link>, from: Id, to: Id): set<Link> {
    set l | l in links :: Link(l.parent, if l.file == from then to else l.file)
  }

  // The links the junction's DELETE removes: the parent already has the new file.
  function Doubled(links: set<Link>, from: Id, to: Id): set<Link> {
    set l | l in links && l.file == from && Link(l.parent, to) in links
  }

  // Pointing `from` at `to` would give some parent the same file twice.
  predicate Collides(links: set<Link>, from: Id, to: Id) {
    exists l :: l in links && l.file == from && Link(l.parent, to) in links
  }

  // Whether a column takes a move: a junction's UPDATE cannot collide after its DELETE, a multi-column key is
  // never rewritten.
  predicate Takes(fk: Fk, refused: bool) {
    fk.single && (fk.junction || !refused)
  }

  // What one re-point makes of a column.
  function Repointed(fk: Fk, links: set<Link>, from: Id, to: Id, refused: bool): set<Link> {
    if Takes(fk, refused) then Moved(links, from, to) else links
  }

  // Every column re-pointed.
  ghost predicate AllRepointed(fks: seq<Fk>, conflict: Conflict, was: seq<set<Link>>, now: seq<set<Link>>, from: Id, to: Id) {
    |was| == |now| == |fks| &&
    forall i :: 0 <= i < |fks| ==> now[i] == Repointed(fks[i], was[i], from, to, conflict(i, was[i], from, to))
  }

  // In a junction nothing is lost by the DELETE, and the UPDATE after it cannot collide.
  lemma JunctionMoves(links: set<Link>, from: Id, to: Id)
    requires from != to
    ensures !Collides(links - Doubled(links, from, to), from, to)
    ensures Moved(links - Doubled(links, from, to), from, to) == Moved(links, from, to)
  {
    var rest := links - Doubled(links, from, to);
    forall m | m in Moved(links, from, to)
      ensures m in Moved(rest, from, to)
    {
      var l :| l in links && m == Link(l.parent, if l.file == from then to else l.file);
      if l in Doubled(links, from, to) {
        assert Link(l.parent, to) in rest;
      }
    }
  }

  function CountRefs(links: set<Link>, file: Id): (n: nat)
    ensures n == 0 <==> !Refers(links, file)
  {
    var refs := set l | l in links && l.file == file;
    assert forall l :: l in links && l.file == file ==> l in refs;
    |refs|
  }

  // Nothing refers to the file.
  predicate Free(columns: seq<set<Link>>, f: Id) {
    forall i :: 0 <= i < |columns| ==> !Refers(columns[i], f)
  }

  // The references left to a file over all columns.
  function CountAll(columns: seq<set<Link>>, file: Id): (n: nat)
    ensures n == 0 <==> Free(columns, file)
  {
    if columns == [] then 0 else CountAll(columns[..|columns| - 1], file) + CountRefs(columns[|columns| - 1], file)
  }

  class Database {
    const fks: seq<Fk>
    var columns: seq<set<Link>>
    var files: set<Id>

    constructor (fks: seq<Fk>, columns: seq<set<Link>>, files: set<Id>)
      requires |columns| == |fks|
      ensures this.fks == fks && this.columns == columns && this.files == files
    {
      this.fks := fks;
      this.columns := columns;
      this.files := files;
    }

    ghost predicate Valid()
      reads this
    {
      |columns| == |fks|
    }

    // One column: the junction's DELETE, then the UPDATE in its savepoint.
    method RepointColumn(conflict: Conflict, i: nat, from: Id, to: Id)
      requires Valid() && i < |fks| && from != to
      modifies this`columns
      ensures Valid()
      ensures columns == old(columns)[i := Repointed(fks[i], old(columns[i]), from, to, conflict(i, old(columns[i]), from, to))]
    {
      if !fks[i].single {
        return;
      }
      var refused := conflict(i, columns[i], from, to);
      if fks[i].junction {
        JunctionMoves(columns[i], from, to);
        columns := columns[i := columns[i] - Doubled(columns[i], from, to)];
        refused := Collides(columns[i], from, to);
      }
      if !refused {
        columns := columns[i := Moved(columns[i], from, to)];
      }
    }

    method RepointFileReferences(conflict: Conflict, from: Id, to: Id) returns (remaining: nat)
      requires Valid() && from != to
      modifies this`columns
      ensures Valid()
      ensures AllRepointed(fks, conflict, old(columns), columns, from, to)
      ensures remaining == CountAll(columns, from)
    {
      remaining := 0;
      for i := 0 to |fks|
        invariant Valid()
        invariant forall k :: 0 <= k < i ==>
                    columns[k] == Repointed(fks[k], old(columns[k]), from, to, conflict(k, old(columns[k]), from, to))
        invariant forall k :: i <= k < |fks| ==> columns[k] == old(columns[k])
        invariant remaining == CountAll(columns[..i], from)
      {
        ghost var was := columns;
        RepointColumn(conflict, i, from, to);
        assert columns[..i] == was[..i] && columns[..i + 1][..i] == columns[..i];
        remaining := remaining + CountRefs(columns[i], from);
      }
      assert columns[..|fks|] == columns;
    }

    // One vanished file: its references are moved to its target, and then its row goes if none is left.
    method Settle(conflict: Conflict, id: Id, target: Option<Id>) returns (gone: bool)
      requires Valid() && target != Some(id)
      modifies this
      ensures Valid()
      ensures target.Some? ==> AllRepointed(fks, conflict, old(columns), columns, id, target.value)
      ensures target.None? ==> columns == old(columns)
      ensures gone <==> target.Some? && Free(columns, id)
      ensures files == if gone then old(files) - {id} else old(files)
    {
      gone := false;
      if target.Some? {
        var left := RepointFileReferences(conflict, id, target.value);
        gone := left == 0;
        if gone {
          files := files - {id};
        }
      }
    }

    // The sweep over the rows not seen in this run: every column ends as its swept self, and a file row is
    // deleted if and only if it is planned to move and nothing refers to it any more.
    method Sweep(conflict: Conflict, candidates: seq<Candidate>, seenFp: SeenFp) returns (missing: seq<Id>)
      requires Valid() && Consistent(candidates, seenFp) && (forall i :: 0 <= i < |candidates| ==> candidates[i].id in files)
      modifies this
      ensures Valid()
      ensures forall i :: 0 <= i < |fks| ==> columns[i] == Swept(fks[i], i, conflict, old(columns[i]), candidates, seenFp, |candidates|)
      ensures forall f :: f in files <==>
                f in old(files) && !(f in Plan(candidates, seenFp, |candidates|) && Free(columns, f))
      ensures forall f :: f in missing <==> f in files && exists i :: 0 <= i < |candidates| && candidates[i].id == f
    {
      missing := [];
      SweepStarts(fks, conflict, columns, files, candidates, seenFp);
      for k := 0 to |candidates|
        invariant Valid()
        invariant SweptSoFar(fks, conflict, old(columns), columns, old(files), files, missing, candidates, seenFp, k)
      {
        var target := Targets(candidates, seenFp)[k];
        ghost var was, had, listed := columns, files, missing;
        TargetIsElsewhere(candidates, seenFp, k);
        var gone := Settle(conflict, candidates[k].id, target);
        if !gone {
          missing := missing + [candidates[k].id];
        }
        SweepFollows(fks, conflict, old(columns), was, columns, old(files), had, files, listed, missing, candidates, seenFp, k, target, gone);
      }
    }
  }

  // After the first k candidates.
  ghost predicate SweptSoFar(fks: seq<Fk>, conflict: Conflict, before: seq<set<Link>>, now: seq<set<Link>>, rows: set<Id>, files: set<Id>,
                             missing: seq<Id>, candidates: seq<Candidate>, seenFp: SeenFp, k: nat)
    requires k <= |candidates|
  {
    && SweptTo(fks, conflict, before, now, candidates, seenFp, k)
    && FilesAt(rows, files, now, candidates, seenFp, k)
    && MissingAt(missing, files, candidates, k)
    && Pending(files, candidates, k)
  }

  // The columns after the first k candidates.
  ghost predicate SweptTo(fks: seq<Fk>, conflict: Conflict, before: seq<set<Link>>, now: seq<set<Link>>,
                          candidates: seq<Candidate>, seenFp: SeenFp, k: nat)
    requires k <= |candidates|
  {
    |before| == |now| == |fks| &&
    forall i :: 0 <= i < |fks| ==> now[i] == Swept(fks[i], i, conflict, before[i], candidates, seenFp, k)
  }

  // The file rows after the first k candidates.
  ghost predicate FilesAt(before: set<Id>, now: set<Id>, columns: seq<set<Link>>, candidates: seq<Candidate>, seenFp: SeenFp, k: nat)
    requires k <= |candidates|
  {
    forall f :: f in now <==> f in before && !(f in Plan(candidates, seenFp, k) && Free(columns, f))
  }

  // The candidates kept among the first k.
  ghost predicate MissingAt(missing: seq<Id>, files: set<Id>, candidates: seq<Candidate>, k: nat)
    requires k <= |candidates|
  {
    forall f :: f in missing <==> f in files && exists i :: 0 <= i < k && candidates[i].id == f
  }

  // The candidates still to come have their rows.
  ghost predicate Pending(files: set<Id>, candidates: seq<Candidate>, k: nat) {
    forall i :: k <= i < |candidates| ==> candidates[i].id in files
  }

  // ---- which files moved ----

  datatype Candidate = Candidate(id: Id, fingerprint: Option<string>, name: Option<string>)

  // Fingerprint to the files seen with it: id and path.
  type SeenFp = map<string, seq<(Id, string)>>

  function CountFp(candidates: seq<Candidate>, fp: string): nat {
    if candidates == [] then 0
    else CountFp(candidates[..|candidates| - 1], fp) + if candidates[|candidates| - 1].fingerprint == Some(fp) then 1 else 0
  }

  function Target(candidates: seq<Candidate>, seenFp: SeenFp, k: nat): Option<Id>
    requires k < |candidates|
  {
    var c := candidates[k];
    if c.fingerprint.Some? && c.fingerprint.value in seenFp && seenFp[c.fingerprint.value] != [] &&
       IsConfidentMove(c.name, seenFp[c.fingerprint.value][0].1, |seenFp[c.fingerprint.value]|, CountFp(candidates, c.fingerprint.value))
    then Some(seenFp[c.fingerprint.value][0].0)
    else None
  }

  // What the walk guarantees: a file is seen once, under one fingerprint, and a seen file is no candidate.
  ghost predicate Consistent(candidates: seq<Candidate>, seenFp: SeenFp) {
    && (forall i, j :: 0 <= i < j < |candidates| ==> candidates[i].id != candidates[j].id)
    && (forall fp, i, k :: fp in seenFp && 0 <= i < |seenFp[fp]| && 0 <= k < |candidates| ==> seenFp[fp][i].0 != candidates[k].id)
    && (forall fp, gp, i, j :: fp in seenFp && gp in seenFp && fp != gp && 0 <= i < |seenFp[fp]| && 0 <= j < |seenFp[gp]| ==>
          seenFp[fp][i].0 != seenFp[gp][j].0)
  }

  function Targets(candidates: seq<Candidate>, seenFp: SeenFp): (t: seq<Option<Id>>)
    ensures |t| == |candidates| && forall k :: 0 <= k < |t| ==> t[k] == Target(candidates, seenFp, k)
  {
    seq(|candidates|, k requires 0 <= k < |candidates| => Target(candidates, seenFp, k))
  }

  function MovesOf(candidates: seq<Candidate>, targets: seq<Option<Id>>, k: nat): map<Id, Id>
    requires k <= |candidates| == |targets|
  {
    if k == 0 then map[]
    else
      var before := MovesOf(candidates, targets, k - 1);
      match targets[k - 1]
      case Some(t) => before[candidates[k - 1].id := t]
      case None => before
  }

  // The moves decided for the first k candidates.
  function Plan(candidates: seq<Candidate>, seenFp: SeenFp, k: nat): map<Id, Id>
    requires k <= |candidates|
  {
    MovesOf(candidates, Targets(candidates, seenFp), k)
  }

  lemma {:induction false} MoveOfCandidate(candidates: seq<Candidate>, targets: seq<Option<Id>>, k: nat, f: Id) returns (i: nat)
    requires k <= |candidates| == |targets| && f in MovesOf(candidates, targets, k)
    ensures i < k && candidates[i].id == f && targets[i] == Some(MovesOf(candidates, targets, k)[f])
  {
    if candidates[k - 1].id == f && targets[k - 1].Some? {
      i := k - 1;
    } else {
      i := MoveOfCandidate(candidates, targets, k - 1, f);
    }
  }

  // How many rows of one fingerprint there are, apart from telling whether there is just one.
  lemma {:induction false} CountedAlone(candidates: seq<Candidate>, fp: string, k: nat)
    requires k < |candidates| && candidates[k].fingerprint == Some(fp)
    ensures CountFp(candidates, fp) == 1 <==> forall j :: 0 <= j < |candidates| && j != k ==> candidates[j].fingerprint != Some(fp)
  {
    if CountFp(candidates, fp) == 1 {
      forall j | 0 <= j < |candidates| && j != k
        ensures candidates[j].fingerprint != Some(fp)
      {
        if candidates[j].fingerprint == Some(fp) {
          CountsBoth(candidates, fp, if j < k then j else k, if j < k then k else j);
        }
      }
    }
    if forall j :: 0 <= j < |candidates| && j != k ==> candidates[j].fingerprint != Some(fp) {
      CountsOnly(candidates, fp, k);
    }
  }

  lemma {:induction false} CountsOnly(candidates: seq<Candidate>, fp: string, k: nat)
    requires forall j :: 0 <= j < |candidates| && j != k ==> candidates[j].fingerprint != Some(fp)
    requires k < |candidates| ==> candidates[k].fingerprint == Some(fp)
    ensures CountFp(candidates, fp) == if k < |candidates| then 1 else 0
  {
    if candidates != [] {
      CountsOnly(candidates[..|candidates| - 1], fp, k);
    }
  }

  /**
   A vanished file is taken to have moved if and only if no other vanished file and exactly one seen file has
   its fingerprint, and that one has its name.
   */
  lemma MovesExactly(candidates: seq<Candidate>, seenFp: SeenFp, k: nat, to: Id)
    requires k < |candidates|
    ensures Target(candidates, seenFp, k) == Some(to) <==>
              && candidates[k].fingerprint.Some? && candidates[k].name.Some? && candidates[k].name.value != ""
              && (forall j :: 0 <= j < |candidates| && j != k ==> candidates[j].fingerprint != candidates[k].fingerprint)
              && candidates[k].fingerprint.value in seenFp
              && var seen := seenFp[candidates[k].fingerprint.value];
                 |seen| == 1 && seen[0].0 == to && BaseName(seen[0].1) == candidates[k].name.value
  {
    if candidates[k].fingerprint.Some? {
      CountedAlone(candidates, candidates[k].fingerprint.value, k);
    }
  }

  lemma PlanKeys(candidates: seq<Candidate>, seenFp: SeenFp, k: nat, f: Id) returns (i: nat)
    requires k <= |candidates| && f in Plan(candidates, seenFp, k)
    ensures i < k && candidates[i].id == f && Target(candidates, seenFp, i) == Some(Plan(candidates, seenFp, k)[f])
  {
    i := MoveOfCandidate(candidates, Targets(candidates, seenFp), k, f);
  }

  lemma TargetIsSeen(candidates: seq<Candidate>, seenFp: SeenFp, k: nat)
    requires Consistent(candidates, seenFp) && k < |candidates| && Target(candidates, seenFp, k).Some?
    ensures forall i :: 0 <= i < |candidates| ==> candidates[i].id != Target(candidates, seenFp, k).value
  {
  }

  lemma TargetIsElsewhere(candidates: seq<Candidate>, seenFp: SeenFp, k: nat)
    requires Consistent(candidates, seenFp) && k < |candidates|
    ensures Target(candidates, seenFp, k) != Some(candidates[k].id)
  {
    if Target(candidates, seenFp, k).Some? {
      TargetIsSeen(candidates, seenFp, k);
    }
  }

  lemma {:induction false} CountsBoth(candidates: seq<Candidate>, fp: string, i: nat, j: nat)
    requires i < j < |candidates| && candidates[i].fingerprint == candidates[j].fingerprint == Some(fp)
    ensures CountFp(candidates, fp) >= 2
  {
    if j < |candidates| - 1 {
      CountsBoth(candidates[..|candidates| - 1], fp, i, j);
    } else {
      CountsOne(candidates[..j], fp, i);
    }
  }

  lemma {:induction false} CountsOne(candidates: seq<Candidate>, fp: string, i: nat)
    requires i < |candidates| && candidates[i].fingerprint == Some(fp)
    ensures CountFp(candidates, fp) >= 1
  {
    if i < |candidates| - 1 {
      CountsOne(candidates[..|candidates| - 1], fp, i);
    }
  }

  // The plan is a partial injection from vanished files to seen files.
  lemma {:induction false} PlanIsInjection(candidates: seq<Candidate>, seenFp: SeenFp, f: Id, g: Id)
    requires Consistent(candidates, seenFp)
    requires var m := Plan(candidates, seenFp, |candidates|); f in m && g in m && f != g
    ensures var m := Plan(candidates, seenFp, |candidates|);
            m[f] != m[g] && forall i :: 0 <= i < |candidates| ==> candidates[i].id != m[f]
  {
    var i := PlanKeys(candidates, seenFp, |candidates|, f);
    var j := PlanKeys(candidates, seenFp, |candidates|, g);
    TargetIsSeen(candidates, seenFp, i);
    TargetsDiffer(candidates, seenFp, i, j);
  }

  lemma TargetsDiffer(candidates: seq<Candidate>, seenFp: SeenFp, i: nat, j: nat)
    requires Consistent(candidates, seenFp) && i < |candidates| && j < |candidates| && i != j
    requires Target(candidates, seenFp, i).Some? && Target(candidates, seenFp, j).Some?
    ensures Target(candidates, seenFp, i) != Target(candidates, seenFp, j)
  {
    var a, b := candidates[i].fingerprint.value, candidates[j].fingerprint.value;
    if a == b {
      CountsBoth(candidates, a, if i < j then i else j, if i < j then j else i);
    }
  }

  // ---- what the sweep did to a column ----

  function Apply(m: map<Id, Id>, f: Id): Id {
    if f in m then m[f] else f
  }

  function Image(m: map<Id, Id>, links: set<Link>): set<Link> {
    set l | l in links :: Link(l.parent, Apply(m, l.file))
  }

  // m takes part of the moves decided for the first k candidates.
  ghost predicate Within(m: map<Id, Id>, candidates: seq<Candidate>, seenFp: SeenFp, k: nat)
    requires k <= |candidates|
  {
    forall f :: f in m ==> f in Plan(candidates, seenFp, k) && m[f] == Plan(candidates, seenFp, k)[f]
  }

  lemma ImageOfNothing(links: set<Link>)
    ensures Image(map[], links) == links
  {
    forall l | l in links
      ensures l in Image(map[], links)
    {
      assert l == Link(l.parent, Apply(map[], l.file));
    }
  }

  // One more move composes with those made before: no file moved earlier, or moved to, is this one.
  lemma ImageGrows(candidates: seq<Candidate>, seenFp: SeenFp, k: nat, m: map<Id, Id>, links: set<Link>, to: Id)
    requires Consistent(candidates, seenFp) && k < |candidates| && Target(candidates, seenFp, k) == Some(to)
    requires Within(m, candidates, seenFp, k)
    ensures Moved(Image(m, links), candidates[k].id, to) == Image(m[candidates[k].id := to], links)
  {
    forall f | f in m
      ensures f != candidates[k].id && m[f] != candidates[k].id
    {
      NeitherEnd(candidates, seenFp, k, f);
    }
    ImageThenMoved(m, links, candidates[k].id, to);
  }

  lemma NeitherEnd(candidates: seq<Candidate>, seenFp: SeenFp, k: nat, f: Id)
    requires Consistent(candidates, seenFp) && k < |candidates| && f in Plan(candidates, seenFp, k)
    ensures f != candidates[k].id && Plan(candidates, seenFp, k)[f] != candidates[k].id
  {
    var i := PlanKeys(candidates, seenFp, k, f);
    TargetIsSeen(candidates, seenFp, i);
  }

  lemma ImageThenMoved(m: map<Id, Id>, links: set<Link>, id: Id, to: Id)
    requires id !in m && forall f :: f in m ==> m[f] != id
    ensures Moved(Image(m, links), id, to) == Image(m[id := to], links)
  {
    var n := m[id := to];
    forall l | l in links
      ensures Link(l.parent, Apply(n, l.file)) in Moved(Image(m, links), id, to)
      ensures Link(l.parent, Apply(n, l.file)) == Link(l.parent, if Apply(m, l.file) == id then to else Apply(m, l.file))
    {
      var mid := Link(l.parent, Apply(m, l.file));
      assert mid in Image(m, links);
    }
    forall x | x in Moved(Image(m, links), id, to)
      ensures x in Image(n, links)
    {
      var mid :| mid in Image(m, links) && x == Link(mid.parent, if mid.file == id then to else mid.file);
      var l :| l in links && mid == Link(l.parent, Apply(m, l.file));
      assert x == Link(l.parent, Apply(n, l.file));
    }
  }

  // The moves a column has taken after the first k candidates: each where the database accepts it then.
  function Taken(fk: Fk, column: nat, conflict: Conflict, links: set<Link>, candidates: seq<Candidate>, seenFp: SeenFp, k: nat): map<Id, Id>
    requires k <= |candidates|
  {
    if k == 0 then map[]
    else
      var before := Taken(fk, column, conflict, links, candidates, seenFp, k - 1);
      var id := candidates[k - 1].id;
      match Target(candidates, seenFp, k - 1)
      case Some(to) => if Takes(fk, conflict(column, Image(before, links), id, to)) then before[id := to] else before
      case None => before
  }

  function Swept(fk: Fk, column: nat, conflict: Conflict, links: set<Link>, candidates: seq<Candidate>, seenFp: SeenFp, k: nat): set<Link>
    requires k <= |candidates|
  {
    Image(Taken(fk, column, conflict, links, candidates, seenFp, k), links)
  }

  // They are part of the plan,
  lemma {:induction false} TakenWithin(fk: Fk, column: nat, conflict: Conflict, links: set<Link>, candidates: seq<Candidate>, seenFp: SeenFp, k: nat)
    requires Consistent(candidates, seenFp) && k <= |candidates|
    ensures Within(Taken(fk, column, conflict, links, candidates, seenFp, k), candidates, seenFp, k)
  {
    if k > 0 {
      TakenWithin(fk, column, conflict, links, candidates, seenFp, k - 1);
      WithinStep(fk, column, conflict, links, candidates, seenFp, k - 1);
    }
  }

  lemma WithinStep(fk: Fk, column: nat, conflict: Conflict, links: set<Link>, candidates: seq<Candidate>, seenFp: SeenFp, k: nat)
    requires Consistent(candidates, seenFp) && k < |candidates|
    requires Within(Taken(fk, column, conflict, links, candidates, seenFp, k), candidates, seenFp, k)
    ensures Within(Taken(fk, column, conflict, links, candidates, seenFp, k + 1), candidates, seenFp, k + 1)
  {
    TakenStep(fk, column, conflict, links, candidates, seenFp, k);
    WithinGrows(Taken(fk, column, conflict, links, candidates, seenFp, k),
                Taken(fk, column, conflict, links, candidates, seenFp, k + 1), candidates, seenFp, k);
  }

  lemma PlanStep(candidates: seq<Candidate>, seenFp: SeenFp, k: nat)
    requires k < |candidates|
    ensures Plan(candidates, seenFp, k + 1) == Extended(Plan(candidates, seenFp, k), candidates[k].id, Target(candidates, seenFp, k))
  {
  }

  function Extended(m: map<Id, Id>, id: Id, to: Option<Id>): map<Id, Id> {
    if to.Some? then m[id := to.value] else m
  }

  lemma TakenStep(fk: Fk, column: nat, conflict: Conflict, links: set<Link>, candidates: seq<Candidate>, seenFp: SeenFp, k: nat)
    requires k < |candidates|
    ensures var before := Taken(fk, column, conflict, links, candidates, seenFp, k);
            var after := Taken(fk, column, conflict, links, candidates, seenFp, k + 1);
            after == before || after == Extended(before, candidates[k].id, Target(candidates, seenFp, k))
  {
  }

  lemma WithinGrows(m: map<Id, Id>, more: map<Id, Id>, candidates: seq<Candidate>, seenFp: SeenFp, k: nat)
    requires Consistent(candidates, seenFp) && k < |candidates| && Within(m, candidates, seenFp, k)
    requires more == m || more == Extended(m, candidates[k].id, Target(candidates, seenFp, k))
    ensures Within(more, candidates, seenFp, k + 1)
  {
    NotYetPlanned(candidates, seenFp, k);
    PlanStep(candidates, seenFp, k);
  }

  // all of it in a junction and in a column without uniqueness,
  lemma {:induction false} TakenIsPlan(fk: Fk, column: nat, conflict: Conflict, links: set<Link>, candidates: seq<Candidate>, seenFp: SeenFp, k: nat)
    requires k <= |candidates| && fk.single && (fk.junction || Unconstrained(conflict, column))
    ensures Taken(fk, column, conflict, links, candidates, seenFp, k) == Plan(candidates, seenFp, k)
  {
    if k > 0 {
      TakenIsPlan(fk, column, conflict, links, candidates, seenFp, k - 1);
    }
  }

  // and none of it in a multi-column key.
  lemma {:induction false} TakenIsNothing(fk: Fk, column: nat, conflict: Conflict, links: set<Link>, candidates: seq<Candidate>, seenFp: SeenFp, k: nat)
    requires k <= |candidates| && !fk.single
    ensures Taken(fk, column, conflict, links, candidates, seenFp, k) == map[]
    ensures Swept(fk, column, conflict, links, candidates, seenFp, k) == links
  {
    if k > 0 {
      TakenIsNothing(fk, column, conflict, links, candidates, seenFp, k - 1);
    }
    ImageOfNothing(links);
  }

  lemma NotYetPlanned(candidates: seq<Candidate>, seenFp: SeenFp, k: nat)
    requires Consistent(candidates, seenFp) && k < |candidates|
    ensures candidates[k].id !in Plan(candidates, seenFp, k)
  {
    if candidates[k].id in Plan(candidates, seenFp, k) {
      var i := PlanKeys(candidates, seenFp, k, candidates[k].id);
    }
  }

  // Re-pointing the links of a swept column sweeps it one candidate further.
  lemma SweptFollows(fk: Fk, column: nat, conflict: Conflict, links: set<Link>, candidates: seq<Candidate>, seenFp: SeenFp, k: nat, to: Id)
    requires Consistent(candidates, seenFp) && k < |candidates| && Target(candidates, seenFp, k) == Some(to)
    ensures var was := Swept(fk, column, conflict, links, candidates, seenFp, k);
            Repointed(fk, was, candidates[k].id, to, conflict(column, was, candidates[k].id, to)) ==
            Swept(fk, column, conflict, links, candidates, seenFp, k + 1)
  {
    TakenWithin(fk, column, conflict, links, candidates, seenFp, k);
    ImageGrows(candidates, seenFp, k, Taken(fk, column, conflict, links, candidates, seenFp, k), links, to);
  }

  lemma SweepStarts(fks: seq<Fk>, conflict: Conflict, columns: seq<set<Link>>, files: set<Id>, candidates: seq<Candidate>, seenFp: SeenFp)
    requires |columns| == |fks| && forall i :: 0 <= i < |candidates| ==> candidates[i].id in files
    ensures SweptSoFar(fks, conflict, columns, columns, files, files, [], candidates, seenFp, 0)
  {
    forall i | 0 <= i < |fks|
      ensures columns[i] == Swept(fks[i], i, conflict, columns[i], candidates, seenFp, 0)
    {
      ImageOfNothing(columns[i]);
    }
  }

  lemma SweepFollows(fks: seq<Fk>, conflict: Conflict, before: seq<set<Link>>, was: seq<set<Link>>, now: seq<set<Link>>,
                     rows: set<Id>, had: set<Id>, files: set<Id>, listed: seq<Id>, missing: seq<Id>,
                     candidates: seq<Candidate>, seenFp: SeenFp, k: nat, to: Option<Id>, gone: bool)
    requires Consistent(candidates, seenFp) && k < |candidates| && Target(candidates, seenFp, k) == to
    requires SweptSoFar(fks, conflict, before, was, rows, had, listed, candidates, seenFp, k)
    requires to.Some? ==> AllRepointed(fks, conflict, was, now, candidates[k].id, to.value)
    requires to.None? ==> now == was
    requires gone <==> to.Some? && Free(now, candidates[k].id)
    requires files == if gone then had - {candidates[k].id} else had
    requires missing == if gone then listed else listed + [candidates[k].id]
    ensures SweptSoFar(fks, conflict, before, now, rows, files, missing, candidates, seenFp, k + 1)
  {
    Follows(fks, conflict, before, was, now, rows, had, files, candidates, seenFp, k, to, gone);
    IdsFollow(listed, had, missing, files, candidates, seenFp, k);
  }

  // One candidate dealt with: its references moved and its row gone if nothing refers to it any more, or,
  // without a target, nothing done.
  lemma Follows(fks: seq<Fk>, conflict: Conflict, before: seq<set<Link>>, was: seq<set<Link>>, now: seq<set<Link>>,
                rows: set<Id>, had: set<Id>, files: set<Id>, candidates: seq<Candidate>, seenFp: SeenFp, k: nat,
                to: Option<Id>, gone: bool)
    requires Consistent(candidates, seenFp) && k < |candidates| && Target(candidates, seenFp, k) == to
    requires SweptTo(fks, conflict, before, was, candidates, seenFp, k) && FilesAt(rows, had, was, candidates, seenFp, k)
    requires to.Some? ==> AllRepointed(fks, conflict, was, now, candidates[k].id, to.value)
    requires to.None? ==> now == was
    requires gone <==> to.Some? && Free(now, candidates[k].id)
    requires files == if gone then had - {candidates[k].id} else had
    ensures SweptTo(fks, conflict, before, now, candidates, seenFp, k + 1) && FilesAt(rows, files, now, candidates, seenFp, k + 1)
  {
    if to.Some? {
      ColumnsFollow(fks, conflict, before, was, now, candidates, seenFp, k, to.value);
      FilesFollow(fks, conflict, rows, had, files, was, now, candidates, seenFp, k, to.value);
    } else {
      Passes(fks, conflict, before, was, candidates, seenFp, k);
      PlanStep(candidates, seenFp, k);
    }
  }

  lemma Passes(fks: seq<Fk>, conflict: Conflict, before: seq<set<Link>>, columns: seq<set<Link>>,
               candidates: seq<Candidate>, seenFp: SeenFp, k: nat)
    requires k < |candidates| && Target(candidates, seenFp, k) == None && SweptTo(fks, conflict, before, columns, candidates, seenFp, k)
    ensures SweptTo(fks, conflict, before, columns, candidates, seenFp, k + 1)
  {
    forall i | 0 <= i < |fks|
      ensures Swept(fks[i], i, conflict, before[i], candidates, seenFp, k + 1) == Swept(fks[i], i, conflict, before[i], candidates, seenFp, k)
    {
      TakenPasses(fks[i], i, conflict, before[i], candidates, seenFp, k);
    }
  }

  lemma TakenPasses(fk: Fk, column: nat, conflict: Conflict, links: set<Link>, candidates: seq<Candidate>, seenFp: SeenFp, k: nat)
    requires k < |candidates| && Target(candidates, seenFp, k) == None
    ensures Taken(fk, column, conflict, links, candidates, seenFp, k + 1) == Taken(fk, column, conflict, links, candidates, seenFp, k)
  {
  }

  lemma ColumnsFollow(fks: seq<Fk>, conflict: Conflict, before: seq<set<Link>>, was: seq<set<Link>>, now: seq<set<Link>>,
                      candidates: seq<Candidate>, seenFp: SeenFp, k: nat, to: Id)
    requires Consistent(candidates, seenFp) && k < |candidates| && Target(candidates, seenFp, k) == Some(to)
    requires SweptTo(fks, conflict, before, was, candidates, seenFp, k)
    requires AllRepointed(fks, conflict, was, now, candidates[k].id, to)
    ensures SweptTo(fks, conflict, before, now, candidates, seenFp, k + 1)
  {
    forall i | 0 <= i < |fks|
      ensures now[i] == Swept(fks[i], i, conflict, before[i], candidates, seenFp, k + 1)
    {
      SweptFollows(fks[i], i, conflict, before[i], candidates, seenFp, k, to);
    }
  }

  // The candidate's row goes if nothing refers to it any more; the rows dealt with earlier are unaffected.
  lemma FilesFollow(fks: seq<Fk>, conflict: Conflict, before: set<Id>, had: set<Id>, files: set<Id>, was: seq<set<Link>>, now: seq<set<Link>>,
                    candidates: seq<Candidate>, seenFp: SeenFp, k: nat, to: Id)
    requires Consistent(candidates, seenFp) && k < |candidates| && Target(candidates, seenFp, k) == Some(to)
    requires AllRepointed(fks, conflict, was, now, candidates[k].id, to)
    requires FilesAt(before, had, was, candidates, seenFp, k)
    requires files == if Free(now, candidates[k].id) then had - {candidates[k].id} else had
    ensures FilesAt(before, files, now, candidates, seenFp, k + 1)
  {
    PlanStep(candidates, seenFp, k);
    NotYetPlanned(candidates, seenFp, k);
    forall f | f in Plan(candidates, seenFp, k)
      ensures Free(now, f) == Free(was, f)
    {
      OthersAsFree(fks, conflict, was, now, candidates, seenFp, k, to, f);
    }
  }

  lemma OthersAsFree(fks: seq<Fk>, conflict: Conflict, was: seq<set<Link>>, now: seq<set<Link>>,
                     candidates: seq<Candidate>, seenFp: SeenFp, k: nat, to: Id, f: Id)
    requires Consistent(candidates, seenFp) && k < |candidates| && Target(candidates, seenFp, k) == Some(to)
    requires AllRepointed(fks, conflict, was, now, candidates[k].id, to) && f in Plan(candidates, seenFp, k)
    ensures Free(now, f) == Free(was, f)
  {
    forall i | 0 <= i < |fks|
      ensures Refers(now[i], f) == Refers(was[i], f)
    {
      OthersAsBefore(was[i], f, candidates[k].id, to, candidates, seenFp, k);
    }
  }

  lemma IdsFollow(listed: seq<Id>, had: set<Id>, missing: seq<Id>, files: set<Id>, candidates: seq<Candidate>, seenFp: SeenFp, k: nat)
    requires Consistent(candidates, seenFp)
    requires k < |candidates| && MissingAt(listed, had, candidates, k) && Pending(had, candidates, k)
    requires (files == had && missing == listed + [candidates[k].id]) || (files == had - {candidates[k].id} && missing == listed)
    ensures MissingAt(missing, files, candidates, k + 1) && Pending(files, candidates, k + 1)
  {
  }

  // A file dealt with earlier neither gains nor loses a reference by another file's move.
  lemma OthersAsBefore(links: set<Link>, f: Id, id: Id, to: Id, candidates: seq<Candidate>, seenFp: SeenFp, k: nat)
    requires Consistent(candidates, seenFp) && k < |candidates| && candidates[k].id == id && Target(candidates, seenFp, k) == Some(to)
    requires f in Plan(candidates, seenFp, k)
    ensures Refers(Moved(links, id, to), f) == Refers(links, f)
  {
    var i := PlanKeys(candidates, seenFp, k, f);
    TargetIsSeen(candidates, seenFp, k);
    if Refers(links, f) {
      var l :| l in links && l.file == f;
      assert l in Moved(links, id, to);
    }
  }

  // No link dangles: a file row is deleted only when nothing refers to it, and links move only to seen files.
  lemma IntegrityKept(fk: Fk, column: nat, conflict: Conflict, before: set<Link>, candidates: seq<Candidate>, seenFp: SeenFp,
                      files: set<Id>, left: set<Id>)
    requires Consistent(candidates, seenFp)
    requires forall l :: l in before ==> l.file in files
    requires forall fp, i :: fp in seenFp && 0 <= i < |seenFp[fp]| ==> seenFp[fp][i].0 in files
    requires forall f :: f in files && f !in left ==> !Refers(Swept(fk, column, conflict, before, candidates, seenFp, |candidates|), f)
    ensures forall l :: l in Swept(fk, column, conflict, before, candidates, seenFp, |candidates|) ==> l.file in left
  {
    var m := Taken(fk, column, conflict, before, candidates, seenFp, |candidates|);
    TakenWithin(fk, column, conflict, before, candidates, seenFp, |candidates|);
    forall x | x in Image(m, before)
      ensures x.file in left
    {
      var l :| l in before && x == Link(l.parent, Apply(m, l.file));
      if l.file in m {
        var i := PlanKeys(candidates, seenFp, |candidates|, l.file);
        var fp := candidates[i].fingerprint.value;
        assert seenFp[fp][0].0 == x.file;
      }
      assert Refers(Image(m, before), x.file);
    }
  }

  function Linked(links: set<Link>, parent: nat): set<Id> {
    set l | l in links && l.parent == parent :: l.file
  }

  // Conservation: after the sweep each parent's files are its earlier files, each under the moves the column
  // took, and no two of a parent's files have become one unless one was already the other's target.
  lemma ParentKeepsItsFiles(fk: Fk, column: nat, conflict: Conflict, before: set<Link>, candidates: seq<Candidate>, seenFp: SeenFp, parent: nat)
    requires Consistent(candidates, seenFp)
    ensures var m := Taken(fk, column, conflict, before, candidates, seenFp, |candidates|);
      && Linked(Swept(fk, column, conflict, before, candidates, seenFp, |candidates|), parent) ==
         (set f | f in Linked(before, parent) :: Apply(m, f))
      && forall f, g :: f in Linked(before, parent) && g in Linked(before, parent) && f != g && Apply(m, f) == Apply(m, g) ==>
           Apply(m, f) == f || Apply(m, g) == g
  {
    var m := Taken(fk, column, conflict, before, candidates, seenFp, |candidates|);
    LinkedImage(m, before, parent);
    TakenWithin(fk, column, conflict, before, candidates, seenFp, |candidates|);
    forall f, g | f in m && g in m && f != g
      ensures m[f] != m[g]
    {
      PlanIsInjection(candidates, seenFp, f, g);
    }
  }

  lemma LinkedImage(m: map<Id, Id>, links: set<Link>, parent: nat)
    ensures Linked(Image(m, links), parent) == set f | f in Linked(links, parent) :: Apply(m, f)
  {
    var after := Linked(Image(m, links), parent);
    forall f | f in Linked(links, parent)
      ensures Apply(m, f) in after
    {
      var l :| l in links && l.parent == parent && l.file == f;
      assert Link(l.parent, Apply(m, l.file)) in Image(m, links);
    }
    forall g | g in after
      ensures exists f :: f in Linked(links, parent) && g == Apply(m, f)
    {
      var x :| x in Image(m, links) && x.parent == parent && x.file == g;
      var l :| l in links && x == Link(l.parent, Apply(m, l.file));
      assert l.file in Linked(links, parent);
    }
  }
}
