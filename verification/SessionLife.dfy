/** The life of a session. */
module SessionLife {
  // apps/force-app/backup-server/server.py: what a stored session says about its stream (streaming, complete,
  // marked, restored), request by request and over the runs of BackupProtocol.

  import opened Wrappers
  import opened BackupServer
  import opened BackupProtocol

  predicate HasMeta(st: Storage, sid: string) {
    sid in st && st[sid].meta.Readable?
  }

  function MetaOf(st: Storage, sid: string): Meta
    requires HasMeta(st, sid)
  {
    st[sid].meta.meta
  }

  // ---- session ids ----

  // The part of a path after its last separator.
  function LastPart(path: string, separators: set<char>): string {
    if path == "" || path[|path| - 1] in separators then "" else LastPart(path[..|path| - 1], separators) + [path[|path| - 1]]
  }

  lemma {:induction false} OwnLastPart(path: string, separators: set<char>)
    ensures |LastPart(path, separators)| <= |path|
    ensures LastPart(path, separators) == path <==> forall i :: 0 <= i < |path| ==> path[i] !in separators
  {
    if path != "" && path[|path| - 1] !in separators {
      OwnLastPart(path[..|path| - 1], separators);
      assert path == path[..|path| - 1] + [path[|path| - 1]];
    }
  }

  predicate OwnName(sid: string) {
    LastPart(sid, {'/'}) == sid && LastPart(sid, {'/', '\\', ':'}) == sid && '\0' !in sid
  }

  lemma OwnNameExactly(sid: string)
    ensures OwnName(sid) <==> forall i :: 0 <= i < |sid| ==> sid[i] !in {'/', '\\', ':', '\0'}
  {
    OwnLastPart(sid, {'/'});
    OwnLastPart(sid, {'/', '\\', ':'});
  }

  predicate NamesParent(sid: string) {
    exists i :: 0 <= i <= |sid| && ".." <= sid[i..]
  }

  lemma NamesParentExactly(sid: string)
    ensures NamesParent(sid) <==> exists i :: 0 < i < |sid| && sid[i - 1] == '.' && sid[i] == '.'
  {
    if i :| 0 < i < |sid| && sid[i - 1] == '.' && sid[i] == '.' {
      var rest := sid[i - 1..];
      assert rest[0] == '.' && rest[1] == '.';
      assert ".." <= rest;
    }
    if i :| 0 <= i <= |sid| && ".." <= sid[i..] {
      assert sid[i..][0] == '.' && sid[i..][1] == '.';
      assert sid[i + 1 - 1] == '.' && sid[i + 1] == '.';
    }
  }

  // An id is safe if and only if it is its own last part on POSIX and on Windows, holds no NUL, and names
  // neither the storage itself nor a parent.
  lemma SafeIdExactly(sid: string)
    ensures SafeId(sid) <==> sid != "" && sid != "." && OwnName(sid) && !NamesParent(sid)
  {
    OwnNameExactly(sid);
    NamesParentExactly(sid);
  }

  // ---- single requests ----

  // A request that is refused changes nothing; an unsafe id is the one reason common to all.
  lemma RefusedChangesNothing(st: Storage, sid: string, header: Option<Bytes>, config: string, offset: Offset, data: Bytes,
                              retention: nat, now: nat)
    ensures AfterStart(st, sid, header, config, now).1.Refused? ==> AfterStart(st, sid, header, config, now).0 == st
    ensures AfterChunk(st, sid, offset, data, now).1.Refused? ==> AfterChunk(st, sid, offset, data, now).0 == st
    ensures AfterFinish(st, sid, now).1.Refused? ==> AfterFinish(st, sid, now).0 == st
    ensures AfterMark(st, sid, retention, now).1.Refused? ==> AfterMark(st, sid, retention, now).0 == st
    ensures AfterUnmark(st, sid, now).1.Refused? ==> AfterUnmark(st, sid, now).0 == st
    ensures AfterDelete(st, sid).1.Refused? ==> AfterDelete(st, sid).0 == st
    ensures AfterStart(st, sid, header, config, now).1.Refused? <==> !SafeId(sid) || header.None?
    ensures AfterChunk(st, sid, offset, data, now).1.Refused? <==>
              !SafeId(sid) || sid !in st || (data != [] && (offset.NotANumber? || (offset.At? && !(0 <= offset.pos <= |RawOf(st, sid)|))))
    ensures AfterChunk(st, sid, offset, data, now).1 == Refused(409) <==>
              SafeId(sid) && sid in st && data != [] && offset.At? && offset.pos > |RawOf(st, sid)|
    ensures AfterFinish(st, sid, now).1.Refused? <==> !SafeId(sid) || sid !in st
    ensures AfterMark(st, sid, retention, now).1.Refused? <==> !SafeId(sid) || sid !in st || st[sid].meta.Unreadable?
    ensures AfterUnmark(st, sid, now).1.Refused? <==> !SafeId(sid) || sid !in st || st[sid].meta.Unreadable?
    ensures AfterDelete(st, sid).1.Refused? <==> !SafeId(sid) || sid !in st
  {
  }

  // A start of a session without bytes opens it as streaming; with bytes it leaves what meta there is.
  lemma StartOpens(st: Storage, sid: string, header: Bytes, config: string, now: nat)
    requires SafeId(sid)
    ensures var (st', r) := AfterStart(st, sid, Some(header), config, now);
            if sid in st && RawOf(st, sid) != [] then
              && r == Started(true, |RawOf(st, sid)|)
              && (!st[sid].meta.NoMeta? ==> st' == st)
              && (st[sid].meta.NoMeta? ==> HasMeta(st', sid) && MetaOf(st', sid).state == Some(Streaming))
            else
              && r == Started(false, |header|) && HasMeta(st', sid)
              && var m := MetaOf(st', sid);
                 && m.state == Some(Streaming) && m.config == Some(config) && m.chunks == 0
                 && m.startedAt == m.updatedAt == Some(now) && m.finishedAt.None? && m.deletedAt.None? && m.before.None?
  {
  }

  // A chunk that brings bytes restarts the retention clock and is counted; one that brings none changes nothing.
  lemma ChunkRestartsClock(st: Storage, sid: string, offset: Offset, data: Bytes, now: nat, retention: nat, sweep: nat)
    requires now > 0 && HasMeta(st, sid)
    ensures var (st', r) := AfterChunk(st, sid, offset, data, now);
            && (r.Appended? && data != [] ==>
                  && r.count == |RawOf(st', sid)| - |RawOf(st, sid)| > 0
                  && HasMeta(st', sid) && MetaOf(st', sid).chunks == MetaOf(st, sid).chunks + 1
                  && (sid in AfterPurge(st', retention, sweep) <==> now + retention >= sweep))
            && (!r.Appended? || data == [] ==> st' == st)
            && (r.Duplicate? ==> r.size == |RawOf(st, sid)|)
  {
  }

  // Without an offset, as older clients send it, a chunk is appended as it comes.
  lemma UnaddressedAppends(st: Storage, sid: string, data: Bytes, now: nat)
    requires SafeId(sid) && sid in st
    ensures AfterChunk(st, sid, NoOffset, data, now).1 == Appended(|data|)
    ensures RawOf(AfterChunk(st, sid, NoOffset, data, now).0, sid) == RawOf(st, sid) + data
  {
    if data != [] {
      ExtendedRaw(st, sid, data, now);
    }
  }

  // A finish completes whatever is not a tombstone, notes its own time and restarts the retention clock.
  lemma FinishCompletes(st: Storage, sid: string, now: nat, retention: nat, sweep: nat)
    requires SafeId(sid) && HasMeta(st, sid) && now > 0
    ensures var (st', r) := AfterFinish(st, sid, now);
            && r == Finished && HasMeta(st', sid)
            && (!IsTombstone(st, sid) ==> MetaOf(st', sid).state == Some(Complete))
            && (IsTombstone(st, sid) ==> IsTombstone(st', sid))
            && MetaOf(st', sid).finishedAt == Some(now)
            && MetaOf(st', sid).startedAt == MetaOf(st, sid).startedAt && MetaOf(st', sid).config == MetaOf(st, sid).config
            && (sid in AfterPurge(st', retention, sweep) <==> now + retention >= sweep)
  {
  }

  // A mark notes its time and the state it hides; without a meta there is none to come back to.
  lemma MarkNotes(st: Storage, sid: string, retention: nat, now: nat)
    requires AfterMark(st, sid, retention, now).1.Marked? && !IsTombstone(st, sid)
    ensures var st' := AfterMark(st, sid, retention, now).0;
            && IsTombstone(st', sid) && MetaOf(st', sid).deletedAt == Some(now)
            && MetaOf(st', sid).before == Some(if HasMeta(st, sid) && MetaOf(st, sid).state.Some? then MetaOf(st, sid).state.value else Unknown)
  {
  }

  // A restore works on tombstones and on nothing else.
  lemma RestoreNeedsTombstone(st: Storage, sid: string, now: nat)
    requires !AfterUnmark(st, sid, now).1.Refused?
    ensures AfterUnmark(st, sid, now).1 == Unmarked(IsTombstone(st, sid))
    ensures IsTombstone(st, sid) ==>
              var st' := AfterUnmark(st, sid, now).0;
              HasMeta(st', sid) && MetaOf(st', sid).state == Some(if MetaOf(st, sid).before.Some? then MetaOf(st, sid).before.value else Unknown)
    ensures !IsTombstone(st, sid) ==> AfterUnmark(st, sid, now).0 == st
  {
  }

  // ---- over runs ----

  // The session lives on and nobody marks it.
  predicate LeavesUnmarked(cfg: Setting, s: System, e: Event)
    requires |s.file| >= HEADER_SIZE && Enabled(s, e)
  {
    !Erases(cfg, s, e) && (e.Mark? ==> e.id != cfg.sid)
  }

  predicate UnmarkedRun(cfg: Setting, s: System, events: seq<Event>)
    requires |s.file| >= HEADER_SIZE && IsRun(cfg, s, events)
    decreases |events|
  {
    events == [] || (LeavesUnmarked(cfg, s, events[0]) && UnmarkedRun(cfg, Step(cfg, s, events[0]), events[1..]))
  }

  predicate Finishes(cfg: Setting, events: seq<Event>) {
    exists i :: 0 <= i < |events| && events[i].Finish? && events[i].id == cfg.sid
  }

  // The clock of the last finish of the session, or what was on record.
  function LastFinish(cfg: Setting, events: seq<Event>, noted: Option<nat>): Option<nat> {
    if events == [] then noted
    else LastFinish(cfg, events[1..], if events[0].Finish? && events[0].id == cfg.sid then Some(events[0].now) else noted)
  }

  lemma {:induction false} LastFinishIs(cfg: Setting, events: seq<Event>, noted: Option<nat>, i: nat)
    requires i < |events| && events[i].Finish? && events[i].id == cfg.sid
    requires forall j :: i < j < |events| ==> !(events[j].Finish? && events[j].id == cfg.sid)
    ensures LastFinish(cfg, events, noted) == Some(events[i].now)
  {
    if i > 0 {
      LastFinishIs(cfg, events[1..], if events[0].Finish? && events[0].id == cfg.sid then Some(events[0].now) else noted, i - 1);
    } else {
      NoneFinishes(cfg, events[1..], Some(events[0].now));
    }
  }

  lemma {:induction false} NoneFinishes(cfg: Setting, events: seq<Event>, noted: Option<nat>)
    requires forall j :: 0 <= j < |events| ==> !(events[j].Finish? && events[j].id == cfg.sid)
    ensures LastFinish(cfg, events, noted) == noted
  {
    if events != [] {
      NoneFinishes(cfg, events[1..], noted);
    }
  }

  // What one event leaves of the meta of a session that is no tombstone.
  lemma {:induction false} StepKeepsState(cfg: Setting, s: System, e: Event)
    requires Inv(cfg, s) && Enabled(s, e) && LeavesUnmarked(cfg, s, e)
    requires HasMeta(s.storage, cfg.sid) && !IsTombstone(s.storage, cfg.sid)
    ensures var t := Step(cfg, s, e).storage;
            && HasMeta(t, cfg.sid) && !IsTombstone(t, cfg.sid)
            && MetaOf(t, cfg.sid).state == (if Finishes(cfg, [e]) then Some(Complete) else MetaOf(s.storage, cfg.sid).state)
            && MetaOf(t, cfg.sid).finishedAt == LastFinish(cfg, [e], MetaOf(s.storage, cfg.sid).finishedAt)
            && MetaOf(t, cfg.sid).startedAt == MetaOf(s.storage, cfg.sid).startedAt
            && MetaOf(t, cfg.sid).config == MetaOf(s.storage, cfg.sid).config
  {
    assert Finishes(cfg, [e]) <==> e.Finish? && e.id == cfg.sid by {
      assert [e][0] == e;
    }
  }

  /**
   A session that is not marked is complete if and only if it was so or one of the requests was its finish;
   starts and chunks that arrive late, or again, take nothing back.
   */
  lemma {:induction false} CompleteExactly(cfg: Setting, s: System, events: seq<Event>)
    requires Inv(cfg, s) && IsRun(cfg, s, events) && UnmarkedRun(cfg, s, events)
    requires HasMeta(s.storage, cfg.sid) && !IsTombstone(s.storage, cfg.sid)
    ensures var t := After(cfg, s, events).storage;
            && HasMeta(t, cfg.sid) && !IsTombstone(t, cfg.sid)
            && MetaOf(t, cfg.sid).state == (if Finishes(cfg, events) then Some(Complete) else MetaOf(s.storage, cfg.sid).state)
            && MetaOf(t, cfg.sid).finishedAt == LastFinish(cfg, events, MetaOf(s.storage, cfg.sid).finishedAt)
            && MetaOf(t, cfg.sid).startedAt == MetaOf(s.storage, cfg.sid).startedAt
            && MetaOf(t, cfg.sid).config == MetaOf(s.storage, cfg.sid).config
    decreases |events|
  {
    if events != [] {
      StepInv(cfg, s, events[0]);
      StepKeepsState(cfg, s, events[0]);
      CompleteExactly(cfg, Step(cfg, s, events[0]), events[1..]);
      FinishesAppend(cfg, events);
    }
  }

  lemma FinishesAppend(cfg: Setting, events: seq<Event>)
    requires events != []
    ensures Finishes(cfg, events) <==> Finishes(cfg, [events[0]]) || Finishes(cfg, events[1..])
  {
    assert [events[0]][0] == events[0];
    if Finishes(cfg, events) {
      var i :| 0 <= i < |events| && events[i].Finish? && events[i].id == cfg.sid;
      if i > 0 {
        assert events[1..][i - 1] == events[i];
      }
    }
  }

  // A stream that was finished is complete again once a later mark is taken back.
  lemma {:induction false} CompleteComesBack(cfg: Setting, s: System, before: seq<Event>, marked: nat, between: seq<Event>, restored: nat)
    requires Inv(cfg, s) && IsRun(cfg, s, before) && UnmarkedRun(cfg, s, before) && Finishes(cfg, before)
    requires HasMeta(s.storage, cfg.sid) && !IsTombstone(s.storage, cfg.sid)
    requires var m := Step(cfg, After(cfg, s, before), Mark(cfg.sid, marked)); IsRun(cfg, m, between) && TombstoneRun(cfg, m, between)
    ensures var m := Step(cfg, After(cfg, s, before), Mark(cfg.sid, marked));
            var t := Step(cfg, After(cfg, m, between), Unmark(cfg.sid, restored)).storage;
            HasMeta(t, cfg.sid) && MetaOf(t, cfg.sid).state == Some(Complete)
  {
    CompleteExactly(cfg, s, before);
    StoredIsAlwaysPrefix(cfg, s, before);
    UnmarkUndoesMark(cfg, After(cfg, s, before), marked, between, restored);
  }

  // From the first start on: streaming until the finish, with the configuration of that start.
  lemma {:induction false} StreamsUntilFinished(cfg: Setting, s: System, config: string, now: nat, events: seq<Event>)
    requires Inv(cfg, s) && cfg.sid !in s.storage && StartMsg(s.file[..HEADER_SIZE]) in s.sent
    requires var t := Step(cfg, s, Deliver(StartMsg(s.file[..HEADER_SIZE]), config, now)); IsRun(cfg, t, events) && UnmarkedRun(cfg, t, events)
    ensures var t := After(cfg, Step(cfg, s, Deliver(StartMsg(s.file[..HEADER_SIZE]), config, now)), events).storage;
            && HasMeta(t, cfg.sid)
            && MetaOf(t, cfg.sid).state == Some(if Finishes(cfg, events) then Complete else Streaming)
            && MetaOf(t, cfg.sid).startedAt == Some(now) && MetaOf(t, cfg.sid).config == Some(config)
            && MetaOf(t, cfg.sid).finishedAt == LastFinish(cfg, events, None)
  {
    var start := Deliver(StartMsg(s.file[..HEADER_SIZE]), config, now);
    StartOpens(s.storage, cfg.sid, s.file[..HEADER_SIZE], config, now);
    StepInv(cfg, s, start);
    CompleteExactly(cfg, Step(cfg, s, start), events);
  }
}
