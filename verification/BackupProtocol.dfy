/** One recording, streamed. */
module BackupProtocol {
  // Runs of the live-backup protocol: backup-server/server.py against backend/app/backup.py's BackupStreamer: a
  // file that only grows, over a channel that may lose, repeat, delay and reorder, while anybody may mark,
  // unmark, finish, delete or purge sessions.

  import opened Wrappers
  import opened BackupServer

  // The streamer's messages: the header once, and slices of the file past it.
  datatype Message = StartMsg(header: Bytes) | ChunkMsg(pos: nat, data: Bytes)

  const HEADER_SIZE := 32

  datatype System = System(
    storage: Storage,
    file: Bytes,            // the local recording; grows only
    sent: set<Message>,     // ever put on the wire; never removed, so any may arrive again or never
    accepted: set<Message>, // answered with a success status; the answer itself may be lost or late
    offset: nat,            // the streamer's last acknowledged offset
    registered: bool,
    intact: bool)           // the session has not been deleted or purged since it was registered

  datatype Event =
    | Record(more: Bytes)
    | SendStart
    | SendChunk(len: nat)
    | Deliver(msg: Message, config: string, now: nat)
    | HearStart
    | HearChunk(msg: Message)
    | Finish(id: string, now: nat)
    | Mark(id: string, now: nat)
    | Unmark(id: string, now: nat)
    | Delete(id: string)
    | Purge(now: nat)

  // The recording the run is about, and the server's retention.
  datatype Setting = Setting(sid: string, retention: nat)

  predicate Succeeds(r: Reply) {
    !r.Refused?
  }

  function Receive(cfg: Setting, st: Storage, msg: Message, config: string, now: nat): (Storage, Reply) {
    match msg
    case StartMsg(header) => AfterStart(st, cfg.sid, Some(header), config, now)
    case ChunkMsg(pos, data) => AfterChunk(st, cfg.sid, At(pos), data, now)
  }

  predicate Enabled(s: System, e: Event)
    requires |s.file| >= HEADER_SIZE
  {
    match e
    case SendChunk(len) => s.registered && len > 0 && s.offset + len <= |s.file|
    case Deliver(msg, _, _) => msg in s.sent
    case HearStart => StartMsg(s.file[..HEADER_SIZE]) in s.accepted && !s.registered
    case HearChunk(msg) => msg in s.accepted && msg.ChunkMsg? && s.registered && msg.pos == s.offset
    case _ => true
  }

  function Step(cfg: Setting, s: System, e: Event): (t: System)
    requires |s.file| >= HEADER_SIZE
    requires Enabled(s, e)
    ensures s.file <= t.file && s.sent <= t.sent && s.accepted <= t.accepted
  {
    match e
    case Record(more) => s.(file := s.file + more)
    case SendStart => s.(sent := s.sent + {StartMsg(s.file[..HEADER_SIZE])})
    case SendChunk(len) => s.(sent := s.sent + {ChunkMsg(s.offset, s.file[s.offset..s.offset + len])})
    case Deliver(msg, config, now) =>
      var (st, r) := Receive(cfg, s.storage, msg, config, now);
      s.(storage := st, accepted := if Succeeds(r) then s.accepted + {msg} else s.accepted)
    case HearStart => s.(registered := true)
    case HearChunk(msg) => s.(offset := s.offset + |msg.data|)
    case Finish(id, now) => s.(storage := AfterFinish(s.storage, id, now).0)
    case Mark(id, now) => s.(storage := AfterMark(s.storage, id, cfg.retention, now).0)
    case Unmark(id, now) => s.(storage := AfterUnmark(s.storage, id, now).0)
    case Delete(id) => Erased(cfg, s, AfterDelete(s.storage, id).0)
    case Purge(now) => Erased(cfg, s, AfterPurge(s.storage, cfg.retention, now))
  }

  function Erased(cfg: Setting, s: System, st: Storage): System {
    s.(storage := st, intact := s.intact && (cfg.sid in s.storage ==> cfg.sid in st))
  }

  // Other sessions may exist at the start; this one does not.
  predicate Init(cfg: Setting, s: System) {
    && SafeId(cfg.sid) && cfg.sid !in s.storage
    && |s.file| >= HEADER_SIZE
    && s.sent == {} && s.accepted == {} && s.offset == HEADER_SIZE && !s.registered && s.intact
  }

  function Raw(cfg: Setting, s: System): Bytes {
    if cfg.sid in s.storage && s.storage[cfg.sid].raw.Some? then s.storage[cfg.sid].raw.value else []
  }

  // A message cut from the file: its bytes are the file's at its position.
  predicate Cut(file: Bytes, msg: Message) {
    match msg
    case StartMsg(header) => |file| >= HEADER_SIZE && header == file[..HEADER_SIZE]
    case ChunkMsg(pos, data) => data != [] && HEADER_SIZE <= pos && pos + |data| <= |file| && data == file[pos..pos + |data|]
  }

  // Where the server must have got to for a message to have been accepted.
  function Reach(msg: Message): nat {
    if msg.StartMsg? then HEADER_SIZE else msg.pos + |msg.data|
  }

  // A session of the run exists only with its header, so that no start rewrites its meta.
  predicate Inv(cfg: Setting, s: System) {
    && SafeId(cfg.sid)
    && |s.file| >= HEADER_SIZE
    && s.accepted <= s.sent
    && (forall m :: m in s.sent ==> Cut(s.file, m))
    && Raw(cfg, s) <= s.file
    && (cfg.sid in s.storage ==> |Raw(cfg, s)| >= HEADER_SIZE)
    && (s.intact ==> forall m :: m in s.accepted ==> Reach(m) <= |Raw(cfg, s)|)
    && (s.intact && s.registered ==> s.offset <= |Raw(cfg, s)|)
    && HEADER_SIZE <= s.offset <= |s.file|
    && (!s.registered ==> s.offset == HEADER_SIZE)
  }

  lemma InitInv(cfg: Setting, s: System)
    requires Init(cfg, s)
    ensures Inv(cfg, s)
  {
  }

  // ---- what one delivery does to the raw file ----

  function RawOf(st: Storage, sid: string): Bytes {
    if sid in st && st[sid].raw.Some? then st[sid].raw.value else []
  }

  lemma StartRaw(st: Storage, sid: string, header: Bytes, config: string, now: nat)
    ensures var (st', r) := AfterStart(st, sid, Some(header), config, now);
      && RawOf(st', sid) == (if SafeId(sid) && RawOf(st, sid) == [] then header else RawOf(st, sid))
      && (Succeeds(r) <==> SafeId(sid))
  {
  }

  lemma ExtendedRaw(st: Storage, sid: string, tail: Bytes, now: nat)
    requires sid in st
    ensures RawOf(st[sid := Extended(st[sid], tail, now)], sid) == RawOf(st, sid) + tail
  {
    assert [] + tail == tail;
  }

  // An addressed chunk that is accepted leaves the file holding everything up to its end, and adds
  // nothing but its own bytes past what was there.
  lemma {:induction false} ChunkRaw(st: Storage, sid: string, pos: nat, data: Bytes, now: nat)
    requires data != []
    ensures var (st', r) := AfterChunk(st, sid, At(pos), data, now);
      && (Succeeds(r) <==> SafeId(sid) && sid in st && pos <= |RawOf(st, sid)|)
      && (!Succeeds(r) ==> st' == st)
      && (Succeeds(r) ==>
            RawOf(st', sid) == RawOf(st, sid) + FreshTail(|RawOf(st, sid)|, pos, data)
            && pos + |data| <= |RawOf(st', sid)|)
  {
    if sid in st && pos <= |RawOf(st, sid)| {
      var tail := FreshTail(|RawOf(st, sid)|, pos, data);
      ExtendedRaw(st, sid, tail, now);
      if tail == [] {
        assert RawOf(st, sid) + tail == RawOf(st, sid);
      }
    }
  }

  // A slice of the file, appended where it belongs, keeps a prefix a prefix.
  lemma {:induction false} SliceExtendsPrefix(file: Bytes, raw: Bytes, pos: nat, data: Bytes)
    requires raw <= file && pos <= |raw| && pos + |data| <= |file| && data == file[pos..pos + |data|]
    ensures raw + FreshTail(|raw|, pos, data) <= file
  {
    var tail := FreshTail(|raw|, pos, data);
    if tail != [] {
      assert tail == file[|raw|..pos + |data|];
      assert raw + tail == file[..pos + |data|];
    } else {
      assert raw + tail == raw;
    }
  }

  lemma {:induction false} DeliverInv(cfg: Setting, s: System, msg: Message, config: string, now: nat)
    requires Inv(cfg, s) && msg in s.sent
    ensures Inv(cfg, Step(cfg, s, Deliver(msg, config, now)))
    ensures Raw(cfg, s) <= Raw(cfg, Step(cfg, s, Deliver(msg, config, now)))
  {
    match msg {
      case StartMsg(header) => StartRaw(s.storage, cfg.sid, header, config, now);
      case ChunkMsg(pos, data) =>
        ChunkRaw(s.storage, cfg.sid, pos, data, now);
        if pos <= |RawOf(s.storage, cfg.sid)| {
          SliceExtendsPrefix(s.file, RawOf(s.storage, cfg.sid), pos, data);
        }
    }
  }

  // Marking, unmarking and finishing never touch a raw file; deleting and purging remove it whole.
  lemma MetaOnly(st: Storage, id: string, sid: string, retention: nat, now: nat)
    ensures RawOf(AfterFinish(st, id, now).0, sid) == RawOf(st, sid)
    ensures RawOf(AfterMark(st, id, retention, now).0, sid) == RawOf(st, sid)
    ensures RawOf(AfterUnmark(st, id, now).0, sid) == RawOf(st, sid)
    ensures sid in AfterDelete(st, id).0 ==> RawOf(AfterDelete(st, id).0, sid) == RawOf(st, sid)
    ensures sid in AfterPurge(st, retention, now) ==> RawOf(AfterPurge(st, retention, now), sid) == RawOf(st, sid)
  {
  }

  predicate Erases(cfg: Setting, s: System, e: Event)
    requires |s.file| >= HEADER_SIZE && Enabled(s, e)
  {
    cfg.sid in s.storage && cfg.sid !in Step(cfg, s, e).storage
  }

  // Growing the file keeps every message a slice of it.
  lemma {:induction false} RecordKeepsCuts(file: Bytes, more: Bytes, msg: Message)
    requires Cut(file, msg)
    ensures Cut(file + more, msg)
  {
    match msg {
      case StartMsg(header) => assert (file + more)[..HEADER_SIZE] == file[..HEADER_SIZE];
      case ChunkMsg(pos, data) => assert (file + more)[pos..pos + |data|] == file[pos..pos + |data|];
    }
  }

  lemma {:induction false} RecordInv(cfg: Setting, s: System, more: Bytes)
    requires Inv(cfg, s)
    ensures Inv(cfg, Step(cfg, s, Record(more)))
  {
    forall m | m in s.sent
      ensures Cut(s.file + more, m)
    {
      RecordKeepsCuts(s.file, more, m);
    }
  }

  // Every event keeps the invariant, and only an erasure shortens the stored file.
  lemma {:induction false} StepInv(cfg: Setting, s: System, e: Event)
    requires Inv(cfg, s) && Enabled(s, e)
    ensures Inv(cfg, Step(cfg, s, e))
    ensures Raw(cfg, s) <= Raw(cfg, Step(cfg, s, e)) || Erases(cfg, s, e)
  {
    match e {
      case Record(more) => RecordInv(cfg, s, more);
      case Deliver(msg, config, now) => DeliverInv(cfg, s, msg, config, now);
      case Finish(_, _) => KeepsRawInv(cfg, s, e);
      case Mark(_, _) => KeepsRawInv(cfg, s, e);
      case Unmark(_, _) => KeepsRawInv(cfg, s, e);
      case Delete(_) => RemovesInv(cfg, s, e);
      case Purge(_) => RemovesInv(cfg, s, e);
      case _ => StreamerInv(cfg, s, e);
    }
  }

  lemma KeepsRawInv(cfg: Setting, s: System, e: Event)
    requires Inv(cfg, s) && Enabled(s, e) && (e.Finish? || e.Mark? || e.Unmark?)
    ensures Inv(cfg, Step(cfg, s, e)) && Raw(cfg, Step(cfg, s, e)) == Raw(cfg, s)
  {
    MetaOnly(s.storage, e.id, cfg.sid, cfg.retention, e.now);
  }

  lemma RemovesInv(cfg: Setting, s: System, e: Event)
    requires Inv(cfg, s) && Enabled(s, e) && (e.Delete? || e.Purge?)
    ensures Inv(cfg, Step(cfg, s, e))
    ensures Raw(cfg, Step(cfg, s, e)) == Raw(cfg, s) || Erases(cfg, s, e)
  {
    MetaOnly(s.storage, if e.Delete? then e.id else "", cfg.sid, cfg.retention, if e.Purge? then e.now else 0);
  }

  // What the streamer sends and hears leaves the server's storage alone.
  lemma StreamerInv(cfg: Setting, s: System, e: Event)
    requires Inv(cfg, s) && Enabled(s, e)
    requires !e.Record? && !e.Deliver? && !e.Finish? && !e.Mark? && !e.Unmark? && !e.Delete? && !e.Purge?
    ensures Inv(cfg, Step(cfg, s, e)) && Raw(cfg, Step(cfg, s, e)) == Raw(cfg, s)
  {
    if e.HearChunk? {
      assert Cut(s.file, e.msg);
    }
  }

  // ---- whole runs ----

  predicate IsRun(cfg: Setting, s: System, events: seq<Event>)
    requires |s.file| >= HEADER_SIZE
    decreases |events|
  {
    events == [] || (Enabled(s, events[0]) && IsRun(cfg, Step(cfg, s, events[0]), events[1..]))
  }

  function After(cfg: Setting, s: System, events: seq<Event>): (t: System)
    requires |s.file| >= HEADER_SIZE && IsRun(cfg, s, events)
    ensures s.file <= t.file
    decreases |events|
  {
    if events == [] then s else After(cfg, Step(cfg, s, events[0]), events[1..])
  }

  predicate NeverErased(cfg: Setting, s: System, events: seq<Event>)
    requires |s.file| >= HEADER_SIZE && IsRun(cfg, s, events)
    decreases |events|
  {
    events == [] || (!Erases(cfg, s, events[0]) && NeverErased(cfg, Step(cfg, s, events[0]), events[1..]))
  }

  // Safety: after any run, under any loss, repetition, delay and reordering, the stored file is a
  // prefix of the recording, and it has not shrunk unless the session was deleted or purged.
  lemma {:induction false} StoredIsAlwaysPrefix(cfg: Setting, s: System, events: seq<Event>)
    requires Inv(cfg, s) && IsRun(cfg, s, events)
    ensures Inv(cfg, After(cfg, s, events))
    ensures Raw(cfg, After(cfg, s, events)) <= After(cfg, s, events).file
    ensures NeverErased(cfg, s, events) ==> Raw(cfg, s) <= Raw(cfg, After(cfg, s, events))
    ensures NeverErased(cfg, s, events) ==> After(cfg, s, events).intact == s.intact
    decreases |events|
  {
    if events != [] {
      StepInv(cfg, s, events[0]);
      StoredIsAlwaysPrefix(cfg, Step(cfg, s, events[0]), events[1..]);
    }
  }

  // Recovery in one message: everything past the last acknowledged offset.
  lemma {:induction false} ResendCompletes(cfg: Setting, s: System, config: string, now: nat)
    requires Inv(cfg, s) && s.intact && s.registered && s.offset < |s.file|
    ensures var all := ChunkMsg(s.offset, s.file[s.offset..]);
      var (st, r) := Receive(cfg, s.storage, all, config, now);
      Succeeds(r) && RawOf(st, cfg.sid) == s.file
  {
    var data := s.file[s.offset..];
    ChunkRaw(s.storage, cfg.sid, s.offset, data, now);
    SliceExtendsPrefix(s.file, RawOf(s.storage, cfg.sid), s.offset, data);
  }

  // How far chunk deliveries reach when counted in order, ignoring those that would leave a gap.
  function Bump(e: Event, pos: nat): nat {
    if e.Deliver? && e.msg.ChunkMsg? && e.msg.pos <= pos && pos < e.msg.pos + |e.msg.data|
    then e.msg.pos + |e.msg.data| else pos
  }

  function Covered(events: seq<Event>, pos: nat): nat
    decreases |events|
  {
    if events == [] then pos else Covered(events[1..], Bump(events[0], pos))
  }

  lemma {:induction false} StepCovers(cfg: Setting, s: System, e: Event, pos: nat)
    requires Inv(cfg, s) && Enabled(s, e) && !Erases(cfg, s, e)
    requires HEADER_SIZE <= pos <= |Raw(cfg, s)|
    ensures Bump(e, pos) <= |Raw(cfg, Step(cfg, s, e))|
  {
    StepInv(cfg, s, e);
    if Bump(e, pos) != pos {
      ChunkRaw(s.storage, cfg.sid, e.msg.pos, e.msg.data, e.now);
    }
  }

  // Recovery in bounded messages among any other traffic: the server ends up holding everything the
  // deliveries cover from an offset it had reached.
  lemma {:induction false} DeliveriesAccumulate(cfg: Setting, s: System, events: seq<Event>, pos: nat)
    requires Inv(cfg, s) && IsRun(cfg, s, events) && NeverErased(cfg, s, events)
    requires HEADER_SIZE <= pos <= |Raw(cfg, s)|
    ensures Covered(events, pos) <= |Raw(cfg, After(cfg, s, events))|
    decreases |events|
  {
    if events != [] {
      StepInv(cfg, s, events[0]);
      StepCovers(cfg, s, events[0], pos);
      DeliveriesAccumulate(cfg, Step(cfg, s, events[0]), events[1..], Bump(events[0], pos));
    }
  }

  // So a run whose deliveries cover the recording from the acknowledged offset stores all of it.
  lemma RecoveryCompletes(cfg: Setting, s: System, events: seq<Event>)
    requires Inv(cfg, s) && s.intact && s.registered
    requires IsRun(cfg, s, events) && NeverErased(cfg, s, events)
    requires Covered(events, s.offset) == |After(cfg, s, events).file|
    ensures Raw(cfg, After(cfg, s, events)) == After(cfg, s, events).file
  {
    DeliveriesAccumulate(cfg, s, events, s.offset);
    StoredIsAlwaysPrefix(cfg, s, events);
  }

  // ---- tombstones and retention ----

  predicate IsTombstone(st: Storage, sid: string) {
    sid in st && st[sid].meta.Readable? && st[sid].meta.meta.state == Some(Deleted)
  }

  // Requests that keep a tombstone: everything but a restore and an erasure.
  predicate KeepsTombstone(cfg: Setting, s: System, e: Event)
    requires |s.file| >= HEADER_SIZE && Enabled(s, e)
  {
    !Erases(cfg, s, e) && (e.Unmark? ==> e.id != cfg.sid)
  }

  // A late finish, a replayed start or chunk, or a repeated mark never turns a deleted capture back
  // into a healthy one, and the state the stream had reached stays on record.
  lemma {:induction false} TombstoneSticks(cfg: Setting, s: System, e: Event)
    requires Inv(cfg, s) && Enabled(s, e) && KeepsTombstone(cfg, s, e)
    requires IsTombstone(s.storage, cfg.sid)
    ensures var t := Step(cfg, s, e).storage;
      && IsTombstone(t, cfg.sid)
      && t[cfg.sid].meta.meta.before == s.storage[cfg.sid].meta.meta.before
      && t[cfg.sid].meta.meta.deletedAt == s.storage[cfg.sid].meta.meta.deletedAt
      && t[cfg.sid].meta.meta.config == s.storage[cfg.sid].meta.meta.config
  {
  }

  predicate TombstoneRun(cfg: Setting, s: System, events: seq<Event>)
    requires |s.file| >= HEADER_SIZE && IsRun(cfg, s, events)
    decreases |events|
  {
    events == [] || (KeepsTombstone(cfg, s, events[0]) && TombstoneRun(cfg, Step(cfg, s, events[0]), events[1..]))
  }

  lemma {:induction false} TombstoneSurvivesRun(cfg: Setting, s: System, events: seq<Event>)
    requires Inv(cfg, s) && IsRun(cfg, s, events) && TombstoneRun(cfg, s, events)
    requires IsTombstone(s.storage, cfg.sid)
    ensures var t := After(cfg, s, events).storage;
      && IsTombstone(t, cfg.sid)
      && t[cfg.sid].meta.meta.before == s.storage[cfg.sid].meta.meta.before
      && t[cfg.sid].meta.meta.config == s.storage[cfg.sid].meta.meta.config
    decreases |events|
  {
    if events != [] {
      TombstoneSticks(cfg, s, events[0]);
      StepInv(cfg, s, events[0]);
      TombstoneSurvivesRun(cfg, Step(cfg, s, events[0]), events[1..]);
    }
  }

  // A restore undoes the mark, whatever arrived in between: the state the stream had reached, its
  // configuration and every stored byte are back.
  lemma {:induction false} UnmarkUndoesMark(cfg: Setting, s: System, marked: nat, events: seq<Event>, restored: nat)
    requires Inv(cfg, s) && cfg.sid in s.storage
    requires s.storage[cfg.sid].meta.Readable? && s.storage[cfg.sid].meta.meta.state.Some?
    requires s.storage[cfg.sid].meta.meta.state != Some(Deleted)
    requires IsRun(cfg, Step(cfg, s, Mark(cfg.sid, marked)), events)
    requires TombstoneRun(cfg, Step(cfg, s, Mark(cfg.sid, marked)), events)
    ensures var t := Step(cfg, After(cfg, Step(cfg, s, Mark(cfg.sid, marked)), events), Unmark(cfg.sid, restored)).storage;
      && cfg.sid in t && t[cfg.sid].meta.Readable?
      && t[cfg.sid].meta.meta.state == s.storage[cfg.sid].meta.meta.state
      && t[cfg.sid].meta.meta.before.None? && t[cfg.sid].meta.meta.deletedAt.None?
      && t[cfg.sid].meta.meta.config == s.storage[cfg.sid].meta.meta.config
      && Raw(cfg, s) <= RawOf(t, cfg.sid)
  {
    var m := Step(cfg, s, Mark(cfg.sid, marked));
    StepInv(cfg, s, Mark(cfg.sid, marked));
    TombstoneSurvivesRun(cfg, m, events);
    TombstoneRunKeepsSession(cfg, m, events);
    StoredIsAlwaysPrefix(cfg, m, events);
    var u := After(cfg, m, events);
    MetaOnly(u.storage, cfg.sid, cfg.sid, cfg.retention, restored);
  }

  lemma {:induction false} TombstoneRunKeepsSession(cfg: Setting, s: System, events: seq<Event>)
    requires Inv(cfg, s) && IsRun(cfg, s, events) && TombstoneRun(cfg, s, events)
    ensures NeverErased(cfg, s, events)
    decreases |events|
  {
    if events != [] {
      StepInv(cfg, s, events[0]);
      TombstoneRunKeepsSession(cfg, Step(cfg, s, events[0]), events[1..]);
    }
  }

  // The promised expiry is the purge's own rule: as long as nothing else reaches the session, a sweep
  // removes it exactly when its clock is past the time the mark reported.
  lemma ExpiryIsHonest(st: Storage, sid: string, retention: nat, now: nat, sweep: nat)
    requires now > 0 && AfterMark(st, sid, retention, now).1.Marked?
    requires sid in st && st[sid].mtime > 0
    ensures var (st', r) := AfterMark(st, sid, retention, now);
      sid !in AfterPurge(st', retention, sweep) <==> r.expiresAt < sweep
  {
  }

  // Repeating the mark, however often and whenever, changes nothing: the retention clock runs on.
  lemma {:induction false} MarksAreIdempotent(st: Storage, sid: string, retention: nat, first: nat, again: seq<nat>)
    requires AfterMark(st, sid, retention, first).1.Marked? && first > 0
    ensures MarkAll(AfterMark(st, sid, retention, first).0, sid, retention, again) == AfterMark(st, sid, retention, first).0
  {
    var marked := AfterMark(st, sid, retention, first).0;
    if again != [] {
      assert AfterMark(marked, sid, retention, again[0]).0 == marked;
      MarksAreIdempotent(st, sid, retention, first, again[1..]);
    }
  }

  function MarkAll(st: Storage, sid: string, retention: nat, times: seq<nat>): Storage {
    if times == [] then st else MarkAll(AfterMark(st, sid, retention, times[0]).0, sid, retention, times[1..])
  }

  // A restore leaves the retention clock alone, except on a tombstone that carries no clock of its own.
  lemma RestoreKeepsClock(st: Storage, sid: string, now: nat)
    requires SafeId(sid) && IsTombstone(st, sid)
    ensures sid in AfterUnmark(st, sid, now).0
    ensures Stamp(AfterUnmark(st, sid, now).0[sid]) == Stamp(st[sid])
       <==> OrElse(st[sid].meta.meta.updatedAt, 0) != 0 || st[sid].mtime == now
  {
  }

  // A sweep decides each session by its own clock alone and alters none of those it keeps.
  lemma PurgeIsExact(st: Storage, retention: nat, now: nat, sid: string)
    requires sid in st
    ensures sid in AfterPurge(st, retention, now) <==> Stamp(st[sid]) + retention >= now
    ensures sid in AfterPurge(st, retention, now) ==> AfterPurge(st, retention, now)[sid] == st[sid]
  {
  }

  // Requests about one session leave every other untouched.
  lemma OthersUntouched(cfg: Setting, st: Storage, msg: Message, config: string, now: nat, other: string)
    requires other != cfg.sid
    ensures other in Receive(cfg, st, msg, config, now).0 <==> other in st
    ensures other in st ==> Receive(cfg, st, msg, config, now).0[other] == st[other]
  {
  }
}
