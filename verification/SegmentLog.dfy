/** What an open segment keeps true: the log it has acknowledged, and the disk that holds it. */
module SegmentLog {
  import opened Prelude
  import opened Jsonl
  import opened Storage
  import opened Records
  import Names

  /** The stem of a segment is the time it starts, HHMMSS. */
  predicate TimeName(stem: string) {
    && |stem| == 6
    && (forall i :: 0 <= i < 6 ==> '0' <= stem[i] <= '9')
    && Two(stem, 0) < 24 && Two(stem, 2) < 60 && Two(stem, 4) < 60
  }

  function Two(s: string, i: nat): int
    requires i + 1 < |s|
  {
    (s[i] as int - '0' as int) * 10 + (s[i + 1] as int - '0' as int)
  }

  /** An append whose rollback failed: its metadata may or may not be on disk. */
  datatype Pending = Pending(name: string, bytes: Bytes, proposed: Meta)

  function Extended(log: Dir, name: string, bytes: Bytes): Dir {
    log[name := Content(log, name) + bytes]
  }

  /** The most a crash can leave in the files. */
  function Limit(log: Dir, pending: Option<Pending>): Dir {
    match pending
    case None => log
    case Some(p) => Extended(log, p.name, p.bytes)
  }

  ghost predicate FilesSound(files: map<string, File>, log: Dir, limit: Dir) {
    && (forall n :: n in log ==> n in files && files[n].anchored && log[n] <= files[n].kept)
    && (forall n :: n in files ==> FileOk(files[n]) && forall s :: s in files[n].seen ==> s <= Content(limit, n))
  }

  ghost predicate MetasSound(metas: set<Option<Meta>>, m: Meta, pending: Option<Pending>) {
    forall x :: x in metas && x.Some? ==>
      SameRecord(x.value, m) || (pending.Some? && SameRecord(x.value, pending.value.proposed))
  }

  predicate NothingYet(m: Meta) {
    m.lifecycle == Creating ==> m.frameCount == 0 && m.activityOffset == 0 && m.sessions == map[]
  }

  /** The recorded length and the name that goes with it come from one measurement. */
  predicate Measured(stem: string, interval: nat, m: Meta, elapsed: nat) {
    var length := SegmentLength(elapsed, interval);
    m.finalizedDir == FinalizedName(stem, length) && m.elapsedNanos == DurationNanos(length)
  }

  ghost predicate WellFormed(stem: string, interval: nat, m: Meta) {
    NothingYet(m) && exists elapsed: nat :: Measured(stem, interval, m, elapsed)
  }

  lemma RecordLengthIsMeasured(m: Meta, stem: string, elapsed: nat, interval: nat)
    requires NothingYet(m)
    ensures WellFormed(stem, interval, RecordLength(m, stem, elapsed, interval))
  {
    assert Measured(stem, interval, RecordLength(m, stem, elapsed, interval), elapsed);
  }

  lemma SameLengthIsMeasured(stem: string, interval: nat, m: Meta, n: Meta)
    requires WellFormed(stem, interval, m) && n.finalizedDir == m.finalizedDir && n.elapsedNanos == m.elapsedNanos
    requires NothingYet(n)
    ensures WellFormed(stem, interval, n)
  {
    var elapsed: nat :| Measured(stem, interval, m, elapsed);
    assert Measured(stem, interval, n, elapsed);
  }

  predicate PlaceNamed(stem: string, interval: nat, place: Place, elapsed: nat) {
    place == Finalized(FinalizedName(stem, SegmentLength(elapsed, interval)))
  }

  /** The names on disk follow from lengths within the interval. */
  ghost predicate NamesSound(stem: string, interval: nat, disk: Disk, m: Meta, pending: Option<Pending>) {
    && WellFormed(stem, interval, m)
    && (pending.Some? ==> WellFormed(stem, interval, pending.value.proposed))
    && (forall x :: x in disk.metaSeen && x.Some? ==> WellFormed(stem, interval, x.value))
    && (forall place :: place in disk.placeSeen && place.Finalized? ==>
          exists elapsed: nat :: PlaceNamed(stem, interval, place, elapsed))
  }

  predicate NothingLogged(log: Dir) {
    forall n :: n in log ==> log[n] == []
  }

  /**
   * Whatever a power cut leaves of `disk`, the bytes of `log` are in it, and the metadata it
   * leaves records either `log` or `log` with the pending append.
   */
  ghost predicate Sound(decode: Decoder, stem: string, interval: nat, disk: Disk, m: Meta, log: Dir,
                        pending: Option<Pending>) {
    && TimeName(stem)
    && NamesSound(stem, interval, disk, m, pending)
    && FilesSound(disk.files, log, Limit(log, pending))
    && MetasSound(disk.metaSeen, m, pending)
    && (Nowhere in disk.placeSeen ==> NothingLogged(log))
    && Registered(decode, stem, m, log)
    && (pending.Some? ==> Registered(decode, stem, pending.value.proposed, Limit(log, pending)))
  }

  /** Every file is fsynced and holds exactly its part of the log. */
  predicate Settled(files: map<string, File>, log: Dir) {
    && log.Keys <= files.Keys
    && (forall n :: n in files ==> files[n] == WholeFile(Content(log, n), files[n].anchored))
    && (forall n :: n in log ==> files[n].anchored)
  }

  lemma SettledIsSound(files: map<string, File>, log: Dir)
    requires Settled(files, log)
    ensures FilesSound(files, log, log)
  {
  }

  /** While no rollback has failed, no metadata on disk claims bytes beyond what is fsynced. */
  lemma OffsetsStayBehindFsync(decode: Decoder, stem: string, interval: nat, disk: Disk, m: Meta, log: Dir, x: Meta, k: string)
    requires Sound(decode, stem, interval, disk, m, log, None)
    requires Some(x) in disk.metaSeen && k in x.sessions
    ensures x.sessions[k].filename in disk.files
    ensures x.sessions[k].durableOffset <= |disk.files[x.sessions[k].filename].kept|
    ensures x.activityOffset > 0 ==> ActivityName(stem) in disk.files && x.activityOffset <= |disk.files[ActivityName(stem)].kept|
  {
    hide Partition, IdsOf, Parse, FileOf, TimeName;
    assert SameRecord(x, m);
    assert SessionRecorded(decode, k, m.sessions[k], log);
  }

  // ---------- One more append ----------

  lemma ActivityIsNotASession(stem: string, component: string)
    requires TimeName(stem)
    ensures ActivityName(stem) != Names.SessionFilename(component)
  {
    assert ActivityName(stem)[0] == stem[0];
    assert Names.SessionFilename(component)[0] == 't';
  }

  /** `f` is the file of `session`, and of nothing else in the record. */
  predicate OwnFile(stem: string, m: Meta, log: Dir, session: string, f: string) {
    && f != ActivityName(stem)
    && (forall k :: k in m.sessions && k != session ==> m.sessions[k].filename != f)
    && (session in m.sessions ==> m.sessions[session].filename == f)
    && (session !in m.sessions ==> f !in log)
  }

  lemma SessionFileIsItsOwn(decode: Decoder, stem: string, m: Meta, log: Dir, session: string, f: string)
    requires TimeName(stem) && SessionsRecorded(decode, m, log) && NothingElse(stem, m, log)
    requires FileOf(session, f)
    ensures OwnFile(stem, m, log, session, f)
  {
    ActivityIsNotASession(stem, Names.Derive(session).value);
    forall k | k in m.sessions && k != session
      ensures m.sessions[k].filename != f
    {
      assert SessionRecorded(decode, k, m.sessions[k], log);
      if m.sessions[k].filename == f {
        Names.SessionFilesAreDistinct(k, session);
      }
    }
    if session in m.sessions {
      assert SessionRecorded(decode, session, m.sessions[session], log);
    }
  }

  /** The metadata proposed for one more frame. */
  function WithFrame(m: Meta, session: string, filename: string, offset: nat): Meta {
    var id := m.lastFrameId + 1;
    m.(lastFrameId := id, frameCount := m.frameCount + 1, hasFrames := true,
       sessions := m.sessions[session := Session(session, filename, id, offset)])
  }

  function OldIds(ids: Ids, session: string): seq<nat> {
    if session in ids then ids[session] else []
  }

  /** The parse of the session file grows by the new id. */
  lemma FrameExtendsParse(decode: Decoder, stem: string, m: Meta, log: Dir, session: string, f: string, line: Bytes)
    requires SessionsRecorded(decode, m, log) && OwnFile(stem, m, log, session, f)
    requires InRange(IdsOf(decode, m, log), m.lastFrameId)
    requires IsFrame(decode, line, m.lastFrameId + 1)
    ensures var base := Content(log, f);
      Parse(decode, base + line)
      == Parsed(|base| + |line|, OldIds(IdsOf(decode, m, log), session) + [m.lastFrameId + 1], false)
  {
    FileIsReady(decode, stem, m, log, session, f);
    ParseAppendFrame(decode, Content(log, f), None, line, m.lastFrameId + 1);
  }

  lemma FileIsReady(decode: Decoder, stem: string, m: Meta, log: Dir, session: string, f: string)
    requires SessionsRecorded(decode, m, log) && OwnFile(stem, m, log, session, f)
    requires InRange(IdsOf(decode, m, log), m.lastFrameId)
    ensures ReadyFor(decode, Content(log, f), None, m.lastFrameId + 1)
    ensures Parse(decode, Content(log, f)).ids == OldIds(IdsOf(decode, m, log), session)
  {
    if session in m.sessions {
      assert SessionRecorded(decode, session, m.sessions[session], log);
      var ids := Parse(decode, log[f]).ids;
      assert IdAt(IdsOf(decode, m, log), session, |ids| - 1, ids[|ids| - 1]);
    }
  }

  /** The other sessions do not notice the append. */
  lemma OthersUnchanged(decode: Decoder, stem: string, m: Meta, log: Dir, session: string, f: string, line: Bytes, k: string)
    requires SessionsRecorded(decode, m, log) && OwnFile(stem, m, log, session, f)
    requires k in m.sessions && k != session
    ensures Content(Extended(log, f, line), m.sessions[k].filename) == Content(log, m.sessions[k].filename)
    ensures SessionRecorded(decode, k, m.sessions[k], Extended(log, f, line))
  {
    assert SessionRecorded(decode, k, m.sessions[k], log);
  }

  lemma FrameKeepsSessions(decode: Decoder, stem: string, m: Meta, log: Dir, session: string, f: string, line: Bytes)
    requires SessionsRecorded(decode, m, log) && OwnFile(stem, m, log, session, f) && FileOf(session, f)
    requires InRange(IdsOf(decode, m, log), m.lastFrameId)
    requires IsFrame(decode, line, m.lastFrameId + 1)
    ensures SessionsRecorded(decode, WithFrame(m, session, f, |Content(log, f)| + |line|), Extended(log, f, line))
  {
    var after := Extended(log, f, line);
    var m' := WithFrame(m, session, f, |Content(log, f)| + |line|);
    forall k | k in m'.sessions
      ensures SessionRecorded(decode, k, m'.sessions[k], after)
    {
      if k == session {
        FrameExtendsParse(decode, stem, m, log, session, f, line);
      } else {
        OthersUnchanged(decode, stem, m, log, session, f, line, k);
      }
    }
  }

  lemma FrameKeepsIds(decode: Decoder, stem: string, m: Meta, log: Dir, session: string, f: string, line: Bytes)
    requires SessionsRecorded(decode, m, log) && OwnFile(stem, m, log, session, f)
    requires Partition(IdsOf(decode, m, log), m.lastFrameId)
    requires IsFrame(decode, line, m.lastFrameId + 1)
    ensures Partition(IdsOf(decode, WithFrame(m, session, f, |Content(log, f)| + |line|), Extended(log, f, line)),
                      m.lastFrameId + 1)
  {
    hide Partition, SessionsRecorded, OwnFile, IsFrame;
    assert InRange(IdsOf(decode, m, log), m.lastFrameId) by {
      PartitionInRange(IdsOf(decode, m, log), m.lastFrameId);
    }
    FrameAddsOneId(decode, stem, m, log, session, f, line);
    PartitionAppend(IdsOf(decode, m, log), m.lastFrameId, session);
  }

  lemma FrameAddsOneId(decode: Decoder, stem: string, m: Meta, log: Dir, session: string, f: string, line: Bytes)
    requires SessionsRecorded(decode, m, log) && OwnFile(stem, m, log, session, f)
    requires InRange(IdsOf(decode, m, log), m.lastFrameId)
    requires IsFrame(decode, line, m.lastFrameId + 1)
    ensures var ids := IdsOf(decode, m, log);
      IdsOf(decode, WithFrame(m, session, f, |Content(log, f)| + |line|), Extended(log, f, line))
      == ids[session := OldIds(ids, session) + [m.lastFrameId + 1]]
  {
    hide SessionsRecorded, OwnFile, InRange, IsFrame, Extended, Parse, Content;
    var m' := WithFrame(m, session, f, |Content(log, f)| + |line|);
    forall k | k in m'.sessions
      ensures IdsOf(decode, m', Extended(log, f, line))[k]
           == if k == session then OldIds(IdsOf(decode, m, log), session) + [m.lastFrameId + 1] else IdsOf(decode, m, log)[k]
    {
      FrameIdsOfOne(decode, stem, m, log, session, f, line, k);
    }
  }

  lemma FrameIdsOfOne(decode: Decoder, stem: string, m: Meta, log: Dir, session: string, f: string, line: Bytes, k: string)
    requires SessionsRecorded(decode, m, log) && OwnFile(stem, m, log, session, f)
    requires InRange(IdsOf(decode, m, log), m.lastFrameId)
    requires IsFrame(decode, line, m.lastFrameId + 1)
    requires k in m.sessions || k == session
    ensures IdsOf(decode, WithFrame(m, session, f, |Content(log, f)| + |line|), Extended(log, f, line))[k]
         == if k == session then OldIds(IdsOf(decode, m, log), session) + [m.lastFrameId + 1] else IdsOf(decode, m, log)[k]
  {
    if k == session {
      FrameExtendsParse(decode, stem, m, log, session, f, line);
    } else {
      OthersUnchanged(decode, stem, m, log, session, f, line, k);
    }
  }

  lemma FrameKeepsFiles(stem: string, m: Meta, log: Dir, session: string, f: string, line: Bytes)
    requires NothingElse(stem, m, log) && ActivityMeasured(stem, m, log) && OwnFile(stem, m, log, session, f)
    ensures var m' := WithFrame(m, session, f, |Content(log, f)| + |line|);
      NothingElse(stem, m', Extended(log, f, line)) && ActivityMeasured(stem, m', Extended(log, f, line))
  {
    var m' := WithFrame(m, session, f, |Content(log, f)| + |line|);
    forall n | n in Filenames(m) + {f}
      ensures n in Filenames(m')
    {
      if n == f {
        assert session in m'.sessions;
      } else {
        var k :| k in m.sessions && m.sessions[k].filename == n;
        assert m'.sessions[k].filename == n;
      }
    }
    assert Filenames(m') == Filenames(m) + {f};
  }

  /** A frame with the next id keeps the record exact and the ids consecutive. */
  lemma FrameKeepsRecord(decode: Decoder, stem: string, m: Meta, log: Dir, session: string, f: string, line: Bytes)
    requires TimeName(stem) && Registered(decode, stem, m, log) && m.lifecycle != Creating
    requires FileOf(session, f) && IsFrame(decode, line, m.lastFrameId + 1)
    ensures Registered(decode, stem, WithFrame(m, session, f, |Content(log, f)| + |line|), Extended(log, f, line))
  {
    hide Partition, SessionsRecorded, OwnFile, IsFrame, FileOf, NothingElse, ActivityMeasured;
    PartitionInRange(IdsOf(decode, m, log), m.lastFrameId);
    SessionFileIsItsOwn(decode, stem, m, log, session, f);
    FrameKeepsSessions(decode, stem, m, log, session, f, line);
    FrameKeepsIds(decode, stem, m, log, session, f, line);
    FrameKeepsFiles(stem, m, log, session, f, line);
  }

  /** Activity keeps the record exact, and whole lines keep it whole lines. */
  lemma ActivityKeepsRecord(decode: Decoder, stem: string, m: Meta, log: Dir, bytes: Bytes)
    requires TimeName(stem) && Registered(decode, stem, m, log) && m.lifecycle != Creating
    requires bytes != []
    ensures Registered(decode, stem, m.(activityOffset := m.activityOffset + |bytes|), Extended(log, ActivityName(stem), bytes))
  {
    ActivityKeepsSessions(decode, stem, m, log, bytes);
    assert Filenames(m.(activityOffset := m.activityOffset + |bytes|)) == Filenames(m);
  }

  lemma ActivityKeepsSessions(decode: Decoder, stem: string, m: Meta, log: Dir, bytes: Bytes)
    requires TimeName(stem) && SessionsRecorded(decode, m, log)
    ensures var m' := m.(activityOffset := m.activityOffset + |bytes|);
      var after := Extended(log, ActivityName(stem), bytes);
      SessionsRecorded(decode, m', after) && IdsOf(decode, m', after) == IdsOf(decode, m, log)
  {
    var after := Extended(log, ActivityName(stem), bytes);
    forall k | k in m.sessions
      ensures Content(after, m.sessions[k].filename) == Content(log, m.sessions[k].filename)
      ensures SessionRecorded(decode, k, m.sessions[k], after)
    {
      assert SessionRecorded(decode, k, m.sessions[k], log);
      ActivityIsNotASession(stem, Names.Derive(k).value);
    }
  }

  /** Lifecycle and length say nothing about the bytes. */
  lemma SameRecordKeepsRegistered(decode: Decoder, stem: string, m: Meta, other: Meta, log: Dir)
    requires Registered(decode, stem, m, log) && SameRecord(other, m)
    requires other.lifecycle == Creating ==> m.sessions == map[] && m.activityOffset == 0
    ensures Registered(decode, stem, other, log)
  {
    assert IdsOf(decode, other, log) == IdsOf(decode, m, log);
    assert Filenames(other) == Filenames(m);
  }

  lemma SameRecordKeepsRecorded(decode: Decoder, stem: string, m: Meta, other: Meta, log: Dir)
    requires Recorded(decode, stem, m, log) && SameRecord(other, m)
    requires other.lifecycle == Creating ==> m.sessions == map[] && m.activityOffset == 0
    ensures Recorded(decode, stem, other, log)
  {
    hide Registered, Recorded;
    RecordedIsRegistered(decode, stem, m, log);
    SameRecordKeepsRegistered(decode, stem, m, other, log);
    RecordedIsRegistered(decode, stem, other, log);
  }

  // ---------- Whole lines ----------

  /** Whatever a crash leaves of the activity file, its acknowledged part and its limit are whole lines. */
  predicate Lines(stem: string, log: Dir, pending: Option<Pending>) {
    LineWise(stem, log) && LineWise(stem, Limit(log, pending))
  }

  lemma LinesStay(stem: string, log: Dir, name: string, bytes: Bytes)
    requires LineWise(stem, log) && (name == ActivityName(stem) ==> EndsLine(bytes))
    ensures LineWise(stem, Extended(log, name, bytes))
  {
    if name == ActivityName(stem) {
      EndsLineAppend(Content(log, name), bytes);
    }
  }
}
