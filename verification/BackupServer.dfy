/**
 apps/force-app/backup-server/server.py: the stored sessions of the live-backup server and the
 handlers that change them. A handler touches storage only after its last await, so each is one step.
 Storage is a map from session id to the contents of its directory; `now` is the server's clock.
 */
module BackupServer {
  import opened Wrappers
  import B = Bytes

  type Bytes = seq<B.Byte>

  datatype State = Streaming | Complete | Deleted | Unknown

  datatype Meta = Meta(
    state: Option<State>, updatedAt: Option<nat>, startedAt: Option<nat>, finishedAt: Option<nat>,
    deletedAt: Option<nat>, before: Option<State>, chunks: nat, config: Option<string>)

  // meta.json: absent, present but not readable, or an object.
  datatype MetaFile = NoMeta | Unreadable | Readable(meta: Meta)

  datatype Session = Session(raw: Option<Bytes>, meta: MetaFile, mtime: nat)

  type Storage = map<string, Session>

  datatype Reply =
    | Started(existing: bool, size: nat)
    | Appended(count: nat)
    | Duplicate(size: nat)
    | Finished
    | Marked(expiresAt: nat)
    | Unmarked(done: bool)
    | Removed
    | Refused(status: nat)

  // The X-Offset header: absent (an older client), not an integer, or a number.
  datatype Offset = NoOffset | NotANumber | At(pos: int)

  // A bare directory name under both path flavours.
  predicate SafeId(sid: string) {
    && sid != "" && sid != "."
    && (forall i :: 0 <= i < |sid| ==> sid[i] !in {'/', '\\', ':', '\0'})
    && (forall i :: 0 < i < |sid| ==> !(sid[i - 1] == '.' && sid[i] == '.'))
  }

  function EmptyMeta(): Meta {
    Meta(None, None, None, None, None, None, 0, None)
  }

  function NewMeta(config: string, now: nat): Meta {
    EmptyMeta().(state := Some(Streaming), startedAt := Some(now), updatedAt := Some(now), config := Some(config))
  }

  // `a or b` on an optional number: zero is as good as absent.
  function OrElse(a: Option<nat>, b: nat): nat {
    if a.Some? && a.value != 0 then a.value else b
  }

  // The time a purge sweep measures a session's age from.
  function Stamp(s: Session): nat {
    if s.meta.Readable? then OrElse(s.meta.meta.updatedAt, s.mtime) else s.mtime
  }

  function RawSize(s: Session): nat {
    if s.raw.Some? then |s.raw.value| else 0
  }

  // ---- what each request does to the storage ----

  function AfterStart(st: Storage, sid: string, header: Option<Bytes>, config: string, now: nat): (Storage, Reply) {
    if !SafeId(sid) || header.None? then (st, Refused(400))
    else if sid in st && RawSize(st[sid]) > 0 then
      var s := st[sid];
      (if s.meta.NoMeta? then st[sid := s.(meta := Readable(NewMeta(config, now)), mtime := now)] else st,
       Started(true, RawSize(s)))
    else
      var raw := if header.value != [] then Some(header.value) else if sid in st then st[sid].raw else None;
      (st[sid := Session(raw, Readable(NewMeta(config, now)), now)], Started(false, |header.value|))
  }

  // The bytes of a chunk the server does not hold yet.
  function FreshTail(size: nat, offset: nat, data: Bytes): Bytes
    requires offset <= size
  {
    if size - offset >= |data| then [] else data[size - offset..]
  }

  function Touched(s: Session, now: nat): Session {
    if s.meta.Readable? then
      s.(meta := Readable(s.meta.meta.(updatedAt := Some(now), chunks := s.meta.meta.chunks + 1)), mtime := now)
    else s
  }

  function Extended(s: Session, tail: Bytes, now: nat): Session {
    var raw := if s.raw.Some? then s.raw.value + tail else tail;
    Touched(s.(raw := Some(raw), mtime := if s.raw.Some? then s.mtime else now), now)
  }

  function AfterChunk(st: Storage, sid: string, offset: Offset, data: Bytes, now: nat): (Storage, Reply) {
    if !SafeId(sid) then (st, Refused(400))
    else if sid !in st then (st, Refused(404))
    else if data == [] then (st, Appended(0))
    else
      var s := st[sid];
      match offset
      case NoOffset => (st[sid := Extended(s, data, now)], Appended(|data|))
      case NotANumber => (st, Refused(400))
      case At(pos) =>
        if pos < 0 then (st, Refused(400))
        else if pos > RawSize(s) then (st, Refused(409))
        else
          var tail := FreshTail(RawSize(s), pos, data);
          if tail == [] then (st, Duplicate(RawSize(s)))
          else (st[sid := Extended(s, tail, now)], Appended(|tail|))
  }

  function AfterFinish(st: Storage, sid: string, now: nat): (Storage, Reply) {
    if !SafeId(sid) then (st, Refused(400))
    else if sid !in st then (st, Refused(404))
    else
      var s := st[sid];
      if !s.meta.Readable? then (st, Finished)
      else
        var state := if s.meta.meta.state == Some(Deleted) then Some(Deleted) else Some(Complete);
        (st[sid := s.(meta := Readable(s.meta.meta.(state := state, finishedAt := Some(now), updatedAt := Some(now))), mtime := now)],
         Finished)
  }

  function AfterMark(st: Storage, sid: string, retention: nat, now: nat): (Storage, Reply) {
    if !SafeId(sid) then (st, Refused(400))
    else if sid !in st then (st, Refused(404))
    else
      var s := st[sid];
      if s.meta.Unreadable? then (st, Refused(409))
      else
        var m := if s.meta.Readable? then s.meta.meta else EmptyMeta();
        if m.state == Some(Deleted) then (st, Marked(OrElse(m.updatedAt, OrElse(Some(s.mtime), now)) + retention))
        else
          var before := if m.state.Some? then m.state.value else Unknown;
          (st[sid := s.(meta := Readable(m.(before := Some(before), state := Some(Deleted), deletedAt := Some(now), updatedAt := Some(now))),
                        mtime := now)],
           Marked(now + retention))
  }

  function AfterUnmark(st: Storage, sid: string, now: nat): (Storage, Reply) {
    if !SafeId(sid) then (st, Refused(400))
    else if sid !in st then (st, Refused(404))
    else
      var s := st[sid];
      if s.meta.Unreadable? then (st, Refused(409))
      else if s.meta.NoMeta? || s.meta.meta.state != Some(Deleted) then (st, Unmarked(false))
      else
        var m := s.meta.meta;
        var state := if m.before.Some? then m.before.value else Unknown;
        (st[sid := s.(meta := Readable(m.(state := Some(state), before := None, deletedAt := None)), mtime := now)], Unmarked(true))
  }

  function AfterDelete(st: Storage, sid: string): (Storage, Reply) {
    if !SafeId(sid) then (st, Refused(400))
    else if sid !in st then (st, Refused(404))
    else (st - {sid}, Removed)
  }

  predicate Expired(s: Session, retention: nat, now: nat) {
    Stamp(s) + retention < now
  }

  function AfterPurge(st: Storage, retention: nat, now: nat): Storage {
    map sid | sid in st && !Expired(st[sid], retention, now) :: st[sid]
  }

  // ---- the server ----

  class Server {
    var sessions: Storage
    const retention: nat

    constructor (retention: nat)
      ensures sessions == map[] && this.retention == retention
    {
      this.retention := retention;
      sessions := map[];
    }

    method IngestStart(sid: string, header: Option<Bytes>, config: string, now: nat) returns (r: Reply)
      modifies this
      ensures (sessions, r) == AfterStart(old(sessions), sid, header, config, now)
    {
      if !SafeId(sid) || header.None? {
        return Refused(400);
      }
      if sid in sessions && RawSize(sessions[sid]) > 0 {
        var s := sessions[sid];
        if s.meta.NoMeta? {
          sessions := sessions[sid := s.(meta := Readable(NewMeta(config, now)), mtime := now)];
        }
        return Started(true, RawSize(s));
      }
      var s := if sid in sessions then sessions[sid] else Session(None, NoMeta, now);
      if header.value != [] {
        s := s.(raw := header);
      }
      s := s.(meta := Readable(NewMeta(config, now)), mtime := now);
      sessions := sessions[sid := s];
      return Started(false, |header.value|);
    }

    method IngestChunk(sid: string, offset: Offset, data: Bytes, now: nat) returns (r: Reply)
      modifies this
      ensures (sessions, r) == AfterChunk(old(sessions), sid, offset, data, now)
    {
      if !SafeId(sid) {
        return Refused(400);
      }
      if sid !in sessions {
        return Refused(404);
      }
      if data == [] {
        return Appended(0);
      }
      var s := sessions[sid];
      var size := RawSize(s);
      var chunk := data;
      if offset.At? || offset.NotANumber? {
        if offset.NotANumber? || offset.pos < 0 {
          return Refused(400);
        }
        if offset.pos > size {
          return Refused(409);
        }
        var alreadyHave := size - offset.pos;
        if alreadyHave >= |chunk| {
          return Duplicate(size);
        }
        chunk := chunk[alreadyHave..];
      }
      s := Append(s, chunk, now);
      sessions := sessions[sid := s];
      return Appended(|chunk|);
    }

    // open(raw, "ab"), then the bookkeeping in meta.json.
    static method Append(session: Session, chunk: Bytes, now: nat) returns (s: Session)
      ensures s == Extended(session, chunk, now)
    {
      s := session;
      if s.raw.None? {
        s := s.(raw := Some([]), mtime := now);
        assert s.raw.value + chunk == chunk;
      }
      s := s.(raw := Some(s.raw.value + chunk));
      if s.meta.Readable? {
        var m := s.meta.meta;
        s := s.(meta := Readable(m.(updatedAt := Some(now), chunks := m.chunks + 1)), mtime := now);
      }
    }

    method IngestFinish(sid: string, now: nat) returns (r: Reply)
      modifies this
      ensures (sessions, r) == AfterFinish(old(sessions), sid, now)
    {
      if !SafeId(sid) {
        return Refused(400);
      }
      if sid !in sessions {
        return Refused(404);
      }
      var s := sessions[sid];
      if s.meta.Readable? {
        var m := s.meta.meta;
        if m.state != Some(Deleted) {
          m := m.(state := Some(Complete));
        }
        m := m.(finishedAt := Some(now));
        m := m.(updatedAt := Some(now));
        sessions := sessions[sid := s.(meta := Readable(m), mtime := now)];
      }
      return Finished;
    }

    method MarkDeleted(sid: string, now: nat) returns (r: Reply)
      modifies this
      ensures (sessions, r) == AfterMark(old(sessions), sid, retention, now)
    {
      if !SafeId(sid) {
        return Refused(400);
      }
      if sid !in sessions {
        return Refused(404);
      }
      var s := sessions[sid];
      if s.meta.Unreadable? {
        return Refused(409);
      }
      var m := if s.meta.Readable? then s.meta.meta else EmptyMeta();
      if m.state == Some(Deleted) {
        return Marked(OrElse(m.updatedAt, OrElse(Some(s.mtime), now)) + retention);
      }
      m := m.(before := Some(if m.state.Some? then m.state.value else Unknown));
      m := m.(state := Some(Deleted));
      m := m.(deletedAt := Some(now));
      m := m.(updatedAt := Some(now));
      sessions := sessions[sid := s.(meta := Readable(m), mtime := now)];
      return Marked(now + retention);
    }

    method UnmarkDeleted(sid: string, now: nat) returns (r: Reply)
      modifies this
      ensures (sessions, r) == AfterUnmark(old(sessions), sid, now)
    {
      if !SafeId(sid) {
        return Refused(400);
      }
      if sid !in sessions {
        return Refused(404);
      }
      var s := sessions[sid];
      if s.meta.Unreadable? {
        return Refused(409);
      }
      if s.meta.NoMeta? || s.meta.meta.state != Some(Deleted) {
        return Unmarked(false);
      }
      var m := s.meta.meta;
      m := m.(state := Some(if m.before.Some? then m.before.value else Unknown));
      m := m.(before := None);
      m := m.(deletedAt := None);
      sessions := sessions[sid := s.(meta := Readable(m), mtime := now)];
      return Unmarked(true);
    }

    method Delete(sid: string) returns (r: Reply)
      modifies this
      ensures (sessions, r) == AfterDelete(old(sessions), sid)
    {
      if !SafeId(sid) {
        return Refused(400);
      }
      if sid !in sessions {
        return Refused(404);
      }
      sessions := sessions - {sid};
      return Removed;
    }

    // One sweep over the directory listing.
    method PurgeExpired(now: nat)
      modifies this
      ensures sessions == AfterPurge(old(sessions), retention, now)
    {
      var listed := sessions.Keys;
      while listed != {}
        invariant listed <= sessions.Keys <= old(sessions).Keys
        invariant forall sid :: sid in sessions ==> sessions[sid] == old(sessions)[sid]
        invariant forall sid :: sid in old(sessions) && sid !in listed ==>
          (sid in sessions <==> !Expired(old(sessions)[sid], retention, now))
        decreases |listed|
      {
        var sid :| sid in listed;
        listed := listed - {sid};
        if Expired(sessions[sid], retention, now) {
          sessions := sessions - {sid};
        }
      }
    }
  }
}
