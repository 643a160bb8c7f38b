/** From the writer's crash, through recovery, to what is finalized. */
module CrashRecovery {
  import opened Prelude
  import opened Jsonl
  import opened Storage
  import opened Records
  import opened SegmentLog
  import opened Recovery
  import opened Validation
  import opened RecoveryRun
  import opened RecoverySafety
  import Segment
  import Names

  // ---------- What a power cut leaves ----------

  /** A file after a power cut: a prefix of something written, and at least what was fsynced. */
  ghost predicate FileLeft(f: File, left: Option<Bytes>) {
    match left
    case None => !f.anchored
    case Some(b) => f.kept <= b && exists s :: s in f.seen && b <= s
  }

  ghost predicate DirLeft(files: map<string, File>, dir: Dir) {
    dir.Keys <= files.Keys && forall n :: n in files ==> FileLeft(files[n], Lookup(dir, n))
  }

  ghost predicate MetaLeft(metas: set<Option<Meta>>, left: Option<MetaFile>) {
    match left
    case None => None in metas
    case Some(Record(m)) => Some(m) in metas
    case Some(Torn) => false
  }

  ghost predicate PlaceLeft(disk: Disk, stem: string, t: Tree, place: Place) {
    && place in disk.placeSeen
    && match place
       case Nowhere => true
       case Incomplete => IncompleteName(stem) in t.dirs && DirLeft(disk.files, t.dirs[IncompleteName(stem)])
       case Finalized(name) => name in t.dirs && DirLeft(disk.files, t.dirs[name])
  }

  /** A stream directory that a power cut can leave of a segment's disk. */
  ghost predicate LeftBy(disk: Disk, stem: string, t: Tree) {
    && MetaLeft(disk.metaSeen, Lookup(t.metas, MetaName(stem)))
    && exists place :: PlaceLeft(disk, stem, t, place)
  }

  lemma LeftIsBetween(files: map<string, File>, log: Dir, limit: Dir, dir: Dir)
    requires FilesSound(files, log, limit) && DirLeft(files, dir)
    ensures Between(dir, log, limit)
  {
    forall f | f in log
      ensures f in dir && log[f] <= dir[f]
    {
      assert FileLeft(files[f], Lookup(dir, f));
    }
    forall f | f in dir
      ensures dir[f] <= Content(limit, f)
    {
      assert FileLeft(files[f], Lookup(dir, f));
    }
  }

  lemma LimitHoldsLog(log: Dir, pending: Option<Pending>)
    ensures Within(log, Limit(log, pending))
  {
  }

  lemma LeftMetadataRecordsEither(decode: Decoder, stem: string, interval: nat, disk: Disk, m: Meta, log: Dir,
                                  pending: Option<Pending>, t: Tree)
    requires Sound(decode, stem, interval, disk, m, log, pending) && Lines(stem, log, pending)
    requires MetaLeft(disk.metaSeen, Lookup(t.metas, MetaName(stem)))
    ensures RecordsEither(decode, t, stem, log, Limit(log, pending))
  {
    hide FilesSound, Recorded, Registered, MetaName, TimeName, LineWise;
    if MetaName(stem) in t.metas && t.metas[MetaName(stem)].Record? {
      var left := t.metas[MetaName(stem)].meta;
      assert Some(left) in disk.metaSeen && WellFormed(stem, interval, left);
      if SameRecord(left, m) {
        SameRecordKeepsRegistered(decode, stem, m, left, log);
        RecordedIsRegistered(decode, stem, left, log);
      } else {
        SameRecordKeepsRegistered(decode, stem, pending.value.proposed, left, Limit(log, pending));
        RecordedIsRegistered(decode, stem, left, Limit(log, pending));
      }
    }
  }

  /** Whatever a power cut leaves of a segment, everything acknowledged is safe in it. */
  lemma CrashIsSafe(decode: Decoder, stem: string, interval: nat, disk: Disk, m: Meta, log: Dir, pending: Option<Pending>,
                    t: Tree)
    requires Sound(decode, stem, interval, disk, m, log, pending) && LeftBy(disk, stem, t) && Lines(stem, log, pending)
    ensures Safe(decode, t, stem, log, Limit(log, pending))
  {
    hide FilesSound, Recorded, Registered, Lines, MetaName, TimeName, DirLeft, MetasSound, Between, Within, RecordsEither, NothingLogged,
         WellFormed, IncompleteName, Limit, Shelved, FinalizedName, Holds;
    var place :| PlaceLeft(disk, stem, t, place);
    LimitHoldsLog(log, pending);
    match place {
      case Nowhere =>
      case Incomplete =>
        LeftIsBetween(disk.files, log, Limit(log, pending), t.dirs[IncompleteName(stem)]);
        LeftMetadataRecordsEither(decode, stem, interval, disk, m, log, pending, t);
        LimitIsRecordable(decode, stem, m, log, pending);
      case Finalized(name) =>
        var elapsed: nat :| PlaceNamed(stem, interval, place, elapsed);
        FinalizedIsShelved(stem, SegmentLength(elapsed, interval));
        LeftIsBetween(disk.files, log, Limit(log, pending), t.dirs[name]);
        BetweenHolds(t.dirs[name], log, Limit(log, pending));
    }
  }

  lemma LimitIsRecordable(decode: Decoder, stem: string, m: Meta, log: Dir, pending: Option<Pending>)
    requires Registered(decode, stem, m, log) && Lines(stem, log, pending)
    requires pending.Some? ==> Registered(decode, stem, pending.value.proposed, Limit(log, pending))
    ensures Recordable(decode, stem, Limit(log, pending))
  {
    hide Recorded, Registered, LineWise;
    RecordedIsRegistered(decode, stem, m, log);
    if pending.Some? {
      RecordedIsRegistered(decode, stem, pending.value.proposed, Limit(log, pending));
    }
  }

  /**
   * The whole story: a writer under any faults, a power cut, and any number of interrupted
   * recoveries later, every acknowledged byte is in some directory.
   */
  lemma NothingAcknowledgedIsLost(decode: Decoder, stem: string, interval: nat, disk: Disk, log: Dir, t: Tree, now: Tree)
    requires Segment.HeldInLines(decode, stem, interval, disk, log) && LeftBy(disk, stem, t)
    requires AllStaySafe(decode, t, now)
    ensures NothingLogged(log) || exists d :: d in now.dirs && Holds(now.dirs[d], log)
  {
    hide Sound, LeftBy, NothingLogged, Holds, Recorded, TimeName, Within, RecordsEither, Recordable, Lines;
    var m, pending :| Sound(decode, stem, interval, disk, m, log, pending) && Lines(stem, log, pending);
    CrashIsSafe(decode, stem, interval, disk, m, log, pending, t);
    assert Safe(decode, now, stem, log, Limit(log, pending));
  }

  /**
   * A writer's run under any script of faults, then a power cut that leaves any stream directory
   * `t` it can leave, then any number of startups that are each cut off anywhere: when activity
   * comes in whole lines, every byte of every append that was answered with success is at the
   * front of its file in some directory.
   */
  method WriteCrashRecover(decode: Decoder, stem: string, script: seq<Fault>, others: set<string>, tz: Option<string>,
                           offset: int, start: nat, interval: nat, steps: seq<Segment.Step>, t: Tree,
                           startups: seq<Startup>)
    returns (disk: Disk, replies: seq<Segment.Reply>, now: Tree)
    requires TimeName(stem)
    requires forall i :: 0 <= i < |steps| ==> Segment.Proper(decode, steps[i])
    ensures |replies| == |steps| || replies == []
    ensures script == [] && IncompleteName(stem) !in others && MetaName(stem) !in others ==>
      && |replies| == |steps|
      && forall i :: 0 <= i < |steps| && Segment.NoCloseBefore(steps, i) ==> Segment.Taken(steps[i], replies[i])
    ensures Segment.InLines(steps) && LeftBy(disk, stem, t) ==>
      var log := Segment.Replay(Segment.Acknowledged(stem, steps, replies));
      NothingLogged(log) || exists d :: d in now.dirs && Holds(now.dirs[d], log)
  {
    hide LeftBy, Segment.HeldInLines, Segment.Held, AllStaySafe, NothingLogged, Holds, TimeName, Segment.Proper,
         Segment.Acknowledged, Segment.Replay, Segment.InLines, Segment.Taken, Segment.NoCloseBefore;
    disk, replies := Segment.Run(decode, stem, script, others, tz, offset, start, interval, steps);
    now := RecoverRepeatedly(t, decode, interval, startups);
    if Segment.InLines(steps) && LeftBy(disk, stem, t) {
      NothingAcknowledgedIsLost(decode, stem, interval, disk, Segment.Replay(Segment.Acknowledged(stem, steps, replies)), t, now);
    }
  }

  // ---------- Activity that is not in whole lines ----------

  /** Recovery keeps the acknowledged activity exactly when it ends a line: a started line at its end is cut off. */
  lemma ActivityKeptExactlyWhenWholeLines(decode: Decoder, stem: string, m: Meta, log: Dir, dir: Dir)
    requires Registered(decode, stem, m, log) && Holds(dir, log)
    ensures Content(log, ActivityName(stem)) <= Content(Repaired(decode, stem, dir, m), ActivityName(stem)) <==> LineWise(stem, log)
  {
    hide SessionsRecorded, NothingElse, Partition, IdsOf, CountsAgree, LastLineEnd;
    var f := ActivityName(stem);
    var base, b := Content(log, f), Content(dir, f);
    assert Cut(b, m.activityOffset) == base;
    var end := LastLineEnd(base);
    assert end == |base| ==> base[..end] == base;
    if f in dir {
      assert [end][..0] == [];
      assert CutAll(b, [end]) == b[..end];
      assert base <= b;
    }
  }

  /** One such record: a single byte of activity was acknowledged, and the repair leaves none. */
  lemma UnfinishedLineIsCut(decode: Decoder, stem: string, captureTime: CaptureTime, interval: nat) returns (m: Meta)
    requires TimeName(stem)
    ensures Registered(decode, stem, m, map[ActivityName(stem) := [120]])
    ensures Repaired(decode, stem, map[ActivityName(stem) := [120]], m)[ActivityName(stem)] == []
  {
    var f := ActivityName(stem);
    var log: Dir := map[f := [120]];
    var fresh' := Segment.NewMetadata(stem, captureTime, interval).(lifecycle := Open);
    Segment.NewIsRegistered(decode, stem, fresh');
    ActivityKeepsRecord(decode, stem, fresh', map[], [120]);
    m := fresh'.(activityOffset := 1);
    assert Content(map[], f) + [120] == [120 as Byte];
    assert Extended(map[], f, [120]) == log;
    hide Registered, Segment.NewMetadata;
    OneByteIsCut(decode, stem, m, f);
  }

  lemma OneByteIsCut(decode: Decoder, stem: string, m: Meta, f: string)
    requires f == ActivityName(stem) && m.activityOffset == 1
    ensures Repaired(decode, stem, map[f := [120]], m)[f] == []
  {
    var b: Bytes := [120];
    assert Cut(b, 1) == b && !EndsLine(b) && LastLineEnd(b) == 0;
    assert [0][..0] == [];
    assert CutAll(b, [0]) == [];
  }

  // ---------- Metadata a writer leaves is consistent ----------

  lemma LengthFits(elapsed: nat, interval: nat)
    requires interval <= U64_MAX
    ensures SegmentLength(elapsed, interval) * NANOS <= U64_MAX
  {
  }

  /** With an interval of at most 64 bits of nanoseconds, recovery finds every metadata file consistent. */
  lemma WrittenMetadataIsConsistent(decode: Decoder, stem: string, interval: nat, disk: Disk, m: Meta, log: Dir,
                                    pending: Option<Pending>, x: Meta)
    requires Sound(decode, stem, interval, disk, m, log, pending) && interval <= U64_MAX
    requires Some(x) in disk.metaSeen
    ensures MetaConsistent(x, stem)
  {
    hide FilesSound, Registered;
    assert WellFormed(stem, interval, x);
    if SameRecord(x, m) {
      SameRecordKeepsRegistered(decode, stem, m, x, log);
      RegisteredIsConsistent(decode, stem, interval, x, log);
    } else {
      SameRecordKeepsRegistered(decode, stem, pending.value.proposed, x, Limit(log, pending));
      RegisteredIsConsistent(decode, stem, interval, x, Limit(log, pending));
    }
  }

  lemma RegisteredIsConsistent(decode: Decoder, stem: string, interval: nat, m: Meta, record: Dir)
    requires TimeName(stem) && Registered(decode, stem, m, record) && WellFormed(stem, interval, m) && interval <= U64_MAX
    ensures MetaConsistent(m, stem)
  {
    hide Partition, IdsOf, Parse, FileOf, TimeName;
    var elapsed: nat :| Measured(stem, interval, m, elapsed);
    LengthFits(elapsed, interval);
    forall k | k in m.sessions
      ensures SessionConsistent(m, k, m.sessions[k])
    {
      RecordedSessionIsConsistent(decode, stem, m, record, k);
    }
    RecordedFilenamesDiffer(decode, m, record);
  }

  lemma RecordedSessionIsConsistent(decode: Decoder, stem: string, m: Meta, record: Dir, k: string)
    requires Registered(decode, stem, m, record) && k in m.sessions
    ensures SessionConsistent(m, k, m.sessions[k])
  {
    hide FileOf, Parse;
    var s := m.sessions[k];
    assert SessionRecorded(decode, k, s, record);
    var ids := IdsOf(decode, m, record)[k];
    assert IdAt(IdsOf(decode, m, record), k, |ids| - 1, s.lastFrameId);
    EmptyHasNoIds(decode);
  }

  lemma RecordedFilenamesDiffer(decode: Decoder, m: Meta, record: Dir)
    requires SessionsRecorded(decode, m, record)
    ensures FilenamesDiffer(m)
  {
    hide Names.Derive, Parse;
    forall k, l | k in m.sessions && l in m.sessions && m.sessions[k].filename == m.sessions[l].filename
      ensures k == l
    {
      assert SessionRecorded(decode, k, m.sessions[k], record) && SessionRecorded(decode, l, m.sessions[l], record);
      Names.SessionFilesAreDistinct(k, l);
    }
  }

  // ---------- When recovery finalizes, and what ----------

  predicate Finalizes(action: Action) {
    action == FinalizedExactly || action == RepairedThenFinalized
  }

  /** Only files the metadata knows, and nothing but one torn line after what it records. */
  predicate OnlyTornTails(stem: string, m: Meta, dir: Dir) {
    && KnownFiles(stem, dir, m)
    && forall k :: k in m.sessions ==>
         NEWLINE !in Content(dir, m.sessions[k].filename)[|Cut(Content(dir, m.sessions[k].filename), m.sessions[k].durableOffset)|..]
  }

  lemma HeldFilesAreValid(decode: Decoder, stem: string, m: Meta, record: Dir, dir: Dir)
    requires TimeName(stem) && Recorded(decode, stem, m, record) && Holds(dir, record) && OnlyTornTails(stem, m, dir)
    ensures Valid(decode, stem, dir, m, m.frameCount)
  {
    hide Partition, IdsOf, Parse, Committed, NeedsRepair, Holds, KnownFiles;
    CommittedIdsAreLogged(decode, m, record, dir);
    ActivityEndWhenHeld(stem, m, record, dir);
    forall k | k in m.sessions
      ensures SessionGood(decode, dir, m.sessions[k])
    {
      CommittedIsLog(decode, m, record, dir, k);
    }
  }

  lemma ValidTailsAreTorn(decode: Decoder, stem: string, m: Meta, dir: Dir, n: nat)
    requires Valid(decode, stem, dir, m, n)
    ensures OnlyTornTails(stem, m, dir)
  {
    hide Partition, Committed, CommittedIds, NeedsRepair, KnownFiles;
    forall k | k in m.sessions
      ensures NEWLINE !in Content(dir, m.sessions[k].filename)[|Cut(Content(dir, m.sessions[k].filename), m.sessions[k].durableOffset)|..]
    {
      assert SessionGood(decode, dir, m.sessions[k]);
    }
  }

  /** What recovery does with consistent metadata whose record the directory's writer made. */
  ghost predicate Left(decode: Decoder, t: Tree, stem: string, m: Meta, record: Dir) {
    && TimeName(stem) && IncompleteName(stem) in t.dirs
    && Lookup(t.metas, MetaName(stem)) == Some(Record(m))
    && MetaConsistent(m, stem) && Recorded(decode, stem, m, record)
  }

  lemma RecoverLeft(decode: Decoder, t: Tree, stem: string, interval: nat, m: Meta, record: Dir)
    requires Left(decode, t, stem, m, record)
    ensures Recover(decode, t, stem, interval) == RecoverSource(decode, t, stem, RecordLength(m, stem, m.elapsedNanos, interval))
  {
    hide RecoverSource, RecordLength, MetaConsistent, TimeName, Recorded;
  }

  lemma QuarantineDoesNotFinalize(decode: Decoder, t: Tree, stem: string, m: Meta)
    requires IncompleteName(stem) in t.dirs
    ensures Finalizes(Finish(decode, t, stem, m).1) <==>
      exists n :: Valid(decode, stem, t.dirs[IncompleteName(stem)], m, n)
  {
    hide Valid, Done, Quarantine, Updated, Repaired;
  }

  /** A segment that recorded nothing is removed or put aside: the writer leaves no other activity file. */
  lemma NothingRecordedIsNotFinalized(decode: Decoder, t: Tree, stem: string, m: Meta, log: Dir, limit: Dir)
    requires Interrupted(decode, t, stem, log, limit) && EmptyRecord(m)
    ensures !Finalizes(RecoverSource(decode, t, stem, m).1)
  {
    hide Recorded, Finish, Quarantine, ActivityFile, RecordsEither, TimeName, Within;
    var dir := WithoutActivity(stem, t.dirs[IncompleteName(stem)]);
    if n :| n in dir && n != ActivityName(stem) && ActivityFile(n, stem) && dir[n] != [] {
      assert n in limit;
      var r :| Recorded(decode, stem, r, limit);
      OnlyOwnNames(decode, stem, r, limit, n);
    }
    assert !OtherActivity(stem, dir);
    assert Cleared(t, stem).dirs[IncompleteName(stem)] == dir;
  }

  /** Files a writer makes are session files or the segment's own activity file. */
  lemma OnlyOwnNames(decode: Decoder, stem: string, m: Meta, log: Dir, f: string)
    requires TimeName(stem) && Recorded(decode, stem, m, log) && f in log && ActivityFile(f, stem)
    ensures f == ActivityName(stem)
  {
    hide Names.Derive, Partition, IdsOf, Parse;
    if f in Filenames(m) {
      var k :| k in m.sessions && m.sessions[k].filename == f;
      assert SessionRecorded(decode, k, m.sessions[k], log);
      SessionFileIsNoActivity(stem, f, Names.Derive(k).value);
    }
  }

  lemma SessionFileIsNoActivity(stem: string, f: string, component: string)
    requires TimeName(stem) && f == Names.SessionFilename(component)
    ensures !ActivityFile(f, stem)
  {
    hide Names.Derive;
    assert f[0] == 't' && stem[0] != 't';
    assert ActivityName(stem)[0] == stem[0] && (stem + "_")[0] == stem[0];
  }

  /**
   * Recovery finalizes an interrupted segment exactly when it recorded something, the name is
   * free, everything recorded is there, and nothing but torn lines follows it.
   */
  lemma FinalizesExactlyWhen(decode: Decoder, t: Tree, stem: string, interval: nat, m: Meta, record: Dir, log: Dir, limit: Dir)
    requires Interrupted(decode, t, stem, log, limit)
    requires Left(decode, t, stem, m, record) && (record == log || record == limit)
    ensures Finalizes(Recover(decode, t, stem, interval).1) <==>
      && !EmptyRecord(m)
      && !Taken(t, FinalizedName(stem, SegmentLength(m.elapsedNanos, interval)))
      && Holds(t.dirs[IncompleteName(stem)], record)
      && OnlyTornTails(stem, m, t.dirs[IncompleteName(stem)])
  {
    hide Recorded, Between, TimeName, MetaConsistent, Holds, OnlyTornTails, Valid, Finish, RecordsEither, Recordable, Within,
         RecoverCleared, FinalizedName, SegmentLength;
    RecoverLeft(decode, t, stem, interval, m, record);
    var bounded := RecordLength(m, stem, m.elapsedNanos, interval);
    var dir := t.dirs[IncompleteName(stem)];
    if EmptyRecord(m) {
      NothingRecordedIsNotFinalized(decode, t, stem, bounded, log, limit);
    } else {
      BoundedIsRecorded(decode, stem, m, record, m.elapsedNanos, interval);
      QuarantineDoesNotFinalize(decode, t, stem, bounded);
      if n :| Valid(decode, stem, dir, bounded, n) {
        ValidFilesHold(decode, stem, bounded, record, log, limit, dir, n);
        ValidTailsAreTorn(decode, stem, bounded, dir, n);
        SameTails(stem, m, bounded, dir);
      }
      SameTails(stem, m, bounded, dir);
      if Holds(dir, record) && OnlyTornTails(stem, bounded, dir) {
        HeldFilesAreValid(decode, stem, bounded, record, dir);
      }
    }
  }

  lemma SameTails(stem: string, m: Meta, n: Meta, dir: Dir)
    requires m.sessions == n.sessions
    ensures OnlyTornTails(stem, m, dir) == OnlyTornTails(stem, n, dir)
  {
    assert Filenames(m) == Filenames(n);
  }
}
