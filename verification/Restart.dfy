/** What is finalized, and what happens when recovery itself is interrupted and starts again. */
module Restart {
  import opened Prelude
  import opened Jsonl
  import opened Storage
  import opened Records
  import opened SegmentLog
  import opened Recovery
  import opened Validation
  import opened RecoveryRun
  import opened RecoverySafety
  import opened CrashRecovery

  // ---------- Exactly the record ----------

  /** The same bytes, up to empty files. */
  ghost predicate Exactly(dir: Dir, log: Dir) {
    log.Keys <= dir.Keys && forall f :: Content(dir, f) == Content(log, f)
  }

  lemma OnlyRecordedFiles(decode: Decoder, stem: string, m: Meta, record: Dir, log: Dir, limit: Dir, dir: Dir, f: string)
    requires TimeName(stem) && Recorded(decode, stem, m, record) && (record == log || record == limit)
    requires Between(dir, log, limit) && Recordable(decode, stem, limit)
    requires KnownFiles(stem, dir, m) && f in dir && !RecordedFile(stem, m, f)
    ensures dir[f] == [] && f !in record
  {
    hide Recorded, ActivityFile, TimeName;
    assert ActivityFile(f, stem);
    if f in limit {
      var r :| Recorded(decode, stem, r, limit);
      OnlyOwnNames(decode, stem, r, limit, f);
    }
    RecordHasNoOther(decode, stem, m, record, f);
  }

  lemma RecordHasNoOther(decode: Decoder, stem: string, m: Meta, record: Dir, f: string)
    requires Recorded(decode, stem, m, record) && !RecordedFile(stem, m, f)
    ensures f !in record
  {
  }

  lemma RepairedIsExact(decode: Decoder, stem: string, m: Meta, record: Dir, log: Dir, limit: Dir, dir: Dir)
    requires TimeName(stem) && Recorded(decode, stem, m, record) && (record == log || record == limit)
    requires Between(dir, log, limit) && Recordable(decode, stem, limit) && Holds(dir, record) && KnownFiles(stem, dir, m)
    ensures Exactly(Repaired(decode, stem, dir, m), record)
  {
    hide Recorded, RecordedFile, KnownFiles, Between, Recordable, Cuts, CutAll, Repaired, PartlyRepaired;
    RepairedIsRestored(decode, stem, m, record, dir);
    var now := Repaired(decode, stem, dir, m);
    SameKeys(decode, stem, m, dir);
    forall f
      ensures Content(now, f) == Content(record, f)
    {
      if f in dir && !RecordedFile(stem, m, f) {
        OnlyRecordedFiles(decode, stem, m, record, log, limit, dir, f);
      }
    }
  }

  lemma SameKeys(decode: Decoder, stem: string, m: Meta, dir: Dir)
    ensures Repaired(decode, stem, dir, m).Keys == dir.Keys
  {
    hide Cuts, CutAll;
  }

  /**
   * The finalized directory holds exactly the bytes the metadata recorded: everything
   * acknowledged, and at most the one append that was pending. The incomplete directory and
   * the metadata are gone.
   */
  lemma FinalizedHoldsTheRecord(decode: Decoder, t: Tree, stem: string, interval: nat, m: Meta, record: Dir, log: Dir, limit: Dir)
    requires Interrupted(decode, t, stem, log, limit)
    requires Left(decode, t, stem, m, record) && (record == log || record == limit)
    requires Finalizes(Recover(decode, t, stem, interval).1)
    ensures var name := FinalizedName(stem, SegmentLength(m.elapsedNanos, interval));
      var now := Recover(decode, t, stem, interval).0;
      && name in now.dirs && Exactly(now.dirs[name], record)
      && IncompleteName(stem) !in now.dirs && MetaName(stem) !in now.metas
      && now.zones == t.zones[name := m.captureTime]
  {
    hide Recorded, Between, TimeName, MetaConsistent, Holds, OnlyTornTails, Valid, RecordsEither, Recordable, Within,
         FinalizedName, SegmentLength, Repaired, NeedsRepair, Quarantine, Exactly, RecoverCleared, KnownFiles, Shelved;
    FinalizesExactlyWhen(decode, t, stem, interval, m, record, log, limit);
    RecoverLeft(decode, t, stem, interval, m, record);
    BoundedIsRecorded(decode, stem, m, record, m.elapsedNanos, interval);
    var bounded := RecordLength(m, stem, m.elapsedNanos, interval);
    var dir := t.dirs[IncompleteName(stem)];
    TailsKnown(stem, m, bounded, dir);
    FinishIs(decode, t, stem, bounded, record);
    RepairedIsExact(decode, stem, bounded, record, log, limit, dir);
    FinalizedIsShelved(stem, SegmentLength(m.elapsedNanos, interval));
    IncompleteIsNotShelved(stem);
  }

  lemma TailsKnown(stem: string, m: Meta, n: Meta, dir: Dir)
    requires OnlyTornTails(stem, m, dir) && m.sessions == n.sessions
    ensures OnlyTornTails(stem, n, dir) && KnownFiles(stem, dir, n)
  {
    SameTails(stem, m, n, dir);
  }

  /** Finishing a directory that holds its record. */
  lemma FinishIs(decode: Decoder, t: Tree, stem: string, m: Meta, record: Dir)
    requires TimeName(stem) && Recorded(decode, stem, m, record) && IncompleteName(stem) in t.dirs
    requires Holds(t.dirs[IncompleteName(stem)], record) && OnlyTornTails(stem, m, t.dirs[IncompleteName(stem)])
    ensures Finish(decode, t, stem, m).0
         == Done(t, stem, Repaired(decode, stem, t.dirs[IncompleteName(stem)], m), m.(lifecycle := Finalizing))
  {
    hide Recorded, TimeName, Holds, OnlyTornTails, Valid, Repaired, Done, NeedsRepair, Updated;
    var dir := t.dirs[IncompleteName(stem)];
    HeldFilesAreValid(decode, stem, m, record, dir);
    FinishFor(decode, t, stem, m, m.frameCount, t);
    FinalIsRecorded(decode, stem, m, record, dir, m.frameCount);
  }

  // ---------- Interrupted and started again ----------

  /** Half-repaired directories are repaired to the same result. */
  lemma RepairsContinue(decode: Decoder, stem: string, m: Meta, record: Dir, dir: Dir, now: Dir)
    requires TimeName(stem) && Recorded(decode, stem, m, record) && Holds(dir, record) && OnlyTornTails(stem, m, dir)
    requires PartlyRepaired(decode, stem, dir, m, now)
    ensures Holds(now, record) && OnlyTornTails(stem, m, now)
    ensures Repaired(decode, stem, now, m) == Repaired(decode, stem, dir, m)
  {
    hide Recorded, TimeName, PartlyRepaired, Repaired, RecordedFile, OnlyTornTails;
    RepairsRestore(decode, stem, m, record, dir, now);
    assert Holds(now, record) by {
      forall f | f in record
        ensures f in now && record[f] <= now[f]
      {
        assert now[f] == dir[f] || now[f] == Restored(stem, m, record, dir, f);
      }
    }
    TailsContinue(decode, stem, m, record, dir, now);
    RepairedIsRestored(decode, stem, m, record, dir);
    RepairedIsRestored(decode, stem, m, record, now);
    SameKeys(decode, stem, m, dir);
    SameKeys(decode, stem, m, now);
    forall f | f in dir
      ensures Repaired(decode, stem, now, m)[f] == Repaired(decode, stem, dir, m)[f]
    {
      assert now[f] == dir[f] || now[f] == Restored(stem, m, record, dir, f);
    }
  }

  lemma TailsContinue(decode: Decoder, stem: string, m: Meta, record: Dir, dir: Dir, now: Dir)
    requires Recorded(decode, stem, m, record) && Holds(dir, record) && OnlyTornTails(stem, m, dir)
    requires now.Keys == dir.Keys
    requires forall f :: f in dir ==> now[f] == dir[f] || now[f] == Restored(stem, m, record, dir, f)
    ensures OnlyTornTails(stem, m, now)
  {
    hide Recorded, KnownFiles, Holds;
    assert KnownFiles(stem, now, m) by {
      KnownByName(stem, m, dir, now);
    }
    forall k | k in m.sessions
      ensures NEWLINE !in Content(now, m.sessions[k].filename)[|Cut(Content(now, m.sessions[k].filename), m.sessions[k].durableOffset)|..]
    {
      SessionLength(decode, stem, m, record, dir, k);
    }
  }

  lemma SessionLength(decode: Decoder, stem: string, m: Meta, record: Dir, dir: Dir, k: string)
    requires Recorded(decode, stem, m, record) && Holds(dir, record) && k in m.sessions
    ensures m.sessions[k].filename in dir && |Content(record, m.sessions[k].filename)| == m.sessions[k].durableOffset
  {
    CommittedIsLog(decode, m, record, dir, k);
  }

  lemma KnownByName(stem: string, m: Meta, dir: Dir, now: Dir)
    requires KnownFiles(stem, dir, m) && now.Keys == dir.Keys
    ensures KnownFiles(stem, now, m)
  {
    forall n | n in now
      ensures n in Filenames(m) || ActivityFile(n, stem)
    {
      assert n in dir;
    }
  }

  /** A repaired directory needs no repair. */
  lemma RepairedNeedsNothing(decode: Decoder, stem: string, m: Meta, record: Dir, dir: Dir)
    requires TimeName(stem) && Recorded(decode, stem, m, record) && Holds(dir, record)
    requires forall f :: RecordedFile(stem, m, f) ==> Content(dir, f) == Content(record, f)
    ensures !NeedsRepair(decode, stem, dir, m)
  {
    hide Partition, IdsOf, Parse, Committed, Holds, TimeName, NothingElse;
    ActivityEndWhenHeld(stem, m, record, dir);
    forall k | k in m.sessions
      ensures SessionCuts(decode, dir, m.sessions[k]) == []
    {
      CommittedIsLog(decode, m, record, dir, k);
      assert RecordedFile(stem, m, m.sessions[k].filename);
    }
    assert RecordedFile(stem, m, ActivityName(stem));
  }

  lemma RepairedIsClean(decode: Decoder, stem: string, m: Meta, record: Dir, dir: Dir)
    requires TimeName(stem) && Recorded(decode, stem, m, record) && Holds(dir, record)
    ensures forall f :: RecordedFile(stem, m, f) ==> Content(Repaired(decode, stem, dir, m), f) == Content(record, f)
  {
    hide Recorded, PartlyRepaired, Repaired, RecordedFile, TimeName;
    RepairedIsRestored(decode, stem, m, record, dir);
    SameKeys(decode, stem, m, dir);
  }

  /** Everything a restart needs to know about the run that was interrupted. */
  ghost predicate Restartable(decode: Decoder, t: Tree, stem: string, m: Meta, record: Dir) {
    && Left(decode, t, stem, m, record) && !EmptyRecord(m)
    && Holds(t.dirs[IncompleteName(stem)], record) && OnlyTornTails(stem, m, t.dirs[IncompleteName(stem)])
  }

  /** The metadata the run writes is read back by the next run as it is. */
  lemma FinalReadsBack(decode: Decoder, stem: string, interval: nat, m: Meta, record: Dir)
    requires Recorded(decode, stem, m, record) && !EmptyRecord(m) && MetaConsistent(m, stem) && m.elapsedNanos <= U64_MAX
    ensures var final := RecordLength(m, stem, m.elapsedNanos, interval).(lifecycle := Finalizing);
      && MetaConsistent(final, stem) && !EmptyRecord(final) && Recorded(decode, stem, final, record)
      && RecordLength(final, stem, final.elapsedNanos, interval) == final
  {
    var bounded := RecordLength(m, stem, m.elapsedNanos, interval);
    BoundedIsRecorded(decode, stem, m, record, m.elapsedNanos, interval);
    RecordLengthIdempotent(m, stem, m.elapsedNanos, interval);
    hide Recorded, FileOf, TimeName;
    var final := bounded.(lifecycle := Finalizing);
    forall k | k in final.sessions
      ensures SessionConsistent(final, k, final.sessions[k])
    {
      assert SessionConsistent(m, k, m.sessions[k]);
    }
  }

  /** What the uninterrupted run does. */
  lemma UninterruptedRun(decode: Decoder, t: Tree, stem: string, interval: nat, m: Meta, record: Dir)
    requires Restartable(decode, t, stem, m, record)
    requires !Taken(t, FinalizedName(stem, SegmentLength(m.elapsedNanos, interval)))
    ensures var bounded := RecordLength(m, stem, m.elapsedNanos, interval);
      && Recorded(decode, stem, bounded, record)
      && OnlyTornTails(stem, bounded, t.dirs[IncompleteName(stem)])
      && Recover(decode, t, stem, interval).0
         == Done(t, stem, Repaired(decode, stem, t.dirs[IncompleteName(stem)], bounded), bounded.(lifecycle := Finalizing))
  {
    hide Recorded, TimeName, MetaConsistent, Holds, OnlyTornTails, Finish, FinalizedName, SegmentLength, Repaired, Done,
         RecoverCleared;
    var bounded := RecordLength(m, stem, m.elapsedNanos, interval);
    RecoverLeft(decode, t, stem, interval, m, record);
    BoundedIsRecorded(decode, stem, m, record, m.elapsedNanos, interval);
    SameTails(stem, m, bounded, t.dirs[IncompleteName(stem)]);
    FinishIs(decode, t, stem, bounded, record);
  }

  /** Interrupted while repairing: the next run repairs the rest. */
  lemma RestartWhileRepairing(decode: Decoder, t: Tree, stem: string, interval: nat, m: Meta, record: Dir, now: Tree)
    requires Restartable(decode, t, stem, m, record)
    requires !Taken(t, FinalizedName(stem, SegmentLength(m.elapsedNanos, interval)))
    requires Repairing(decode, t, stem, RecordLength(m, stem, m.elapsedNanos, interval), now)
    ensures Recover(decode, now, stem, interval).0 == Recover(decode, t, stem, interval).0
  {
    hide Recorded, TimeName, MetaConsistent, Holds, OnlyTornTails, FinalizedName, SegmentLength, Repaired, PartlyRepaired,
         Recover, EmptyRecord, MetaName, IncompleteName;
    var bounded := RecordLength(m, stem, m.elapsedNanos, interval);
    var source := IncompleteName(stem);
    UninterruptedRun(decode, t, stem, interval, m, record);
    var dir :| PartlyRepaired(decode, stem, t.dirs[source], bounded, dir) && now == WithDir(t, source, dir);
    RepairsContinue(decode, stem, bounded, record, t.dirs[source], dir);
    SameTails(stem, m, bounded, dir);
    UninterruptedRun(decode, now, stem, interval, m, record);
    assert t.dirs[source := dir][source := Repaired(decode, stem, dir, bounded)]
        == t.dirs[source := Repaired(decode, stem, dir, bounded)];
  }

  /** Interrupted after the metadata was written: nothing is left to repair, and the rename follows. */
  lemma RestartAfterRecording(decode: Decoder, t: Tree, stem: string, interval: nat, final: Meta, record: Dir, dir: Dir, again: Dir)
    requires TimeName(stem) && IncompleteName(stem) in t.dirs && MetaConsistent(final, stem) && !EmptyRecord(final)
    requires final.lifecycle == Finalizing && Recorded(decode, stem, final, record) && Holds(dir, record)
    requires OnlyTornTails(stem, final, dir)
    requires RecordLength(final, stem, final.elapsedNanos, interval) == final && !Taken(t, final.finalizedDir)
    requires dir == Repaired(decode, stem, again, final) && Holds(again, record)
    ensures Recover(decode, Written(t, stem, dir, final), stem, interval).0 == Done(t, stem, dir, final)
  {
    hide Recorded, TimeName, MetaConsistent, Holds, OnlyTornTails, FinalizedName, SegmentLength, Repaired, PartlyRepaired,
         EmptyRecord, Finish, RecordLength, RecordedFile, CutAll, Cuts;
    var now := Written(t, stem, dir, final);
    RecoverLeft(decode, now, stem, interval, final, record);
    assert MetaName(stem) !in t.metas ==> final.finalizedDir != MetaName(stem) by {
      FinalNameIsNoMeta(final, stem);
    }
    FinalNameIsNoMeta(final, stem);
    FinalNameIsNoSource(final, stem);
    FinishIs(decode, now, stem, final, record);
    RepairedTwice(decode, stem, final, record, again);
    assert t.dirs[IncompleteName(stem) := dir][IncompleteName(stem) := dir] == t.dirs[IncompleteName(stem) := dir];
    assert t.metas[MetaName(stem) := Record(final)][MetaName(stem) := Record(final)] == t.metas[MetaName(stem) := Record(final)];
  }

  lemma FinalNameIsNoMeta(m: Meta, stem: string)
    requires MetaConsistent(m, stem)
    ensures m.finalizedDir != MetaName(stem)
  {
    assert m.finalizedDir[|stem|] == '_' && MetaName(stem)[|stem|] == '.';
  }

  lemma FinalNameIsNoSource(m: Meta, stem: string)
    requires MetaConsistent(m, stem)
    ensures m.finalizedDir != IncompleteName(stem)
  {
    assert m.finalizedDir[|stem|] == '_' && IncompleteName(stem)[|stem|] == '.';
  }

  lemma RepairedTwice(decode: Decoder, stem: string, m: Meta, record: Dir, dir: Dir)
    requires TimeName(stem) && Recorded(decode, stem, m, record) && Holds(dir, record)
    ensures var now := Repaired(decode, stem, dir, m);
      Holds(now, record) && Repaired(decode, stem, now, m) == now && !NeedsRepair(decode, stem, now, m)
  {
    hide Recorded, TimeName, Repaired, RecordedFile, CutAll, Cuts, PartlyRepaired;
    var now := Repaired(decode, stem, dir, m);
    RepairedIsClean(decode, stem, m, record, dir);
    RepairedIsRestored(decode, stem, m, record, dir);
    SameKeys(decode, stem, m, dir);
    assert Holds(now, record) by {
      forall f | f in record
        ensures f in now && record[f] <= now[f]
      {
        assert now[f] == Restored(stem, m, record, dir, f);
      }
    }
    RepairedNeedsNothing(decode, stem, m, record, now);
    RepairedIsRestored(decode, stem, m, record, now);
    SameKeys(decode, stem, m, now);
  }

  /** Interrupted after the rename: the finalized directory is recognised, and only the metadata goes. */
  lemma RestartAfterRename(decode: Decoder, t: Tree, stem: string, interval: nat, final: Meta, record: Dir, dir: Dir)
    requires TimeName(stem) && MetaConsistent(final, stem) && !EmptyRecord(final) && final.lifecycle == Finalizing
    requires Recorded(decode, stem, final, record) && Holds(dir, record) && OnlyTornTails(stem, final, dir)
    requires !NeedsRepair(decode, stem, dir, final)
    requires IncompleteName(stem) !in t.dirs && Lookup(t.dirs, final.finalizedDir) == Some(dir)
    requires Lookup(t.metas, MetaName(stem)) == Some(Record(final))
    ensures Recover(decode, t, stem, interval).0 == WithoutMeta(WithZone(t, final), MetaName(stem))
  {
    hide Recorded, TimeName, MetaConsistent, Holds, OnlyTornTails, NeedsRepair, Valid, EmptyRecord;
    HeldFilesAreValid(decode, stem, final, record, dir);
    assert Exact(decode, t, stem, final);
  }

  /**
   * Wherever repair-and-finalize of a directory a writer left is cut off, running recovery
   * again leads to the same stream directory.
   */
  lemma RestartReachesTheSame(decode: Decoder, t: Tree, stem: string, interval: nat, m: Meta, record: Dir, now: Tree)
    requires Restartable(decode, t, stem, m, record) && m.elapsedNanos <= U64_MAX
    requires !Taken(t, FinalizedName(stem, SegmentLength(m.elapsedNanos, interval)))
    requires Reached(decode, t, stem, interval, now)
    ensures Recover(decode, now, stem, interval).0 == Recover(decode, t, stem, interval).0
  {
    hide Recorded, TimeName, MetaConsistent, Holds, OnlyTornTails, FinalizedName, SegmentLength, Repaired, PartlyRepaired,
         Recover, EmptyRecord, Valid, Finishing, Closing, ClearedReached, Repairing, MetaName, IncompleteName;
    var bounded := RecordLength(m, stem, m.elapsedNanos, interval);
    BoundedIsRecorded(decode, stem, m, record, m.elapsedNanos, interval);
    assert EmptyRecord(bounded) == EmptyRecord(m) by {
      SameEmptiness(m, bounded);
    }
    assert Finishing(decode, t, stem, bounded, now);
    SameTails(stem, m, bounded, t.dirs[IncompleteName(stem)]);
    HeldFilesAreValid(decode, stem, bounded, record, t.dirs[IncompleteName(stem)]);
    FinishFor(decode, t, stem, bounded, bounded.frameCount, now);
    FinalIsRecorded(decode, stem, bounded, record, t.dirs[IncompleteName(stem)], bounded.frameCount);
    if Repairing(decode, t, stem, bounded, now) {
      RestartWhileRepairing(decode, t, stem, interval, m, record, now);
    } else {
      RestartWhileClosing(decode, t, stem, interval, m, record, now);
    }
  }

  lemma SameEmptiness(m: Meta, n: Meta)
    requires SameRecord(n, m)
    ensures EmptyRecord(n) == EmptyRecord(m)
  {
  }

  lemma RestartWhileClosing(decode: Decoder, t: Tree, stem: string, interval: nat, m: Meta, record: Dir, now: Tree)
    requires Restartable(decode, t, stem, m, record) && m.elapsedNanos <= U64_MAX
    requires !Taken(t, FinalizedName(stem, SegmentLength(m.elapsedNanos, interval)))
    requires var bounded := RecordLength(m, stem, m.elapsedNanos, interval);
      Closing(t, stem, Repaired(decode, stem, t.dirs[IncompleteName(stem)], bounded), bounded.(lifecycle := Finalizing), now)
    ensures Recover(decode, now, stem, interval).0 == Recover(decode, t, stem, interval).0
  {
    hide Recorded, TimeName, MetaConsistent, Holds, OnlyTornTails, FinalizedName, SegmentLength, Repaired, PartlyRepaired,
         Recover, EmptyRecord, NeedsRepair, MetaName, IncompleteName;
    var source := IncompleteName(stem);
    var bounded := RecordLength(m, stem, m.elapsedNanos, interval);
    var final := bounded.(lifecycle := Finalizing);
    var dir := Repaired(decode, stem, t.dirs[source], bounded);
    UninterruptedRun(decode, t, stem, interval, m, record);
    FinalReadsBack(decode, stem, interval, m, record);
    RepairsContinueToEnd(decode, stem, bounded, final, record, t.dirs[source]);
    FinalNameIsNoSource(final, stem);
    if now == Written(t, stem, dir, final) {
      RestartAfterRecording(decode, t, stem, interval, final, record, dir, t.dirs[source]);
    } else if now == Done(t, stem, dir, final) {
      RestartWhenDone(decode, now, stem, interval);
    } else {
      RestartAfterRename(decode, now, stem, interval, final, record, dir);
    }
  }

  lemma RestartWhenDone(decode: Decoder, t: Tree, stem: string, interval: nat)
    requires TimeName(stem) && MetaName(stem) !in t.metas
    ensures Recover(decode, t, stem, interval).0 == t
  {
  }

  lemma RepairsContinueToEnd(decode: Decoder, stem: string, bounded: Meta, final: Meta, record: Dir, dir: Dir)
    requires TimeName(stem) && Recorded(decode, stem, bounded, record) && Recorded(decode, stem, final, record)
    requires final == bounded.(lifecycle := Finalizing)
    requires Holds(dir, record) && OnlyTornTails(stem, bounded, dir)
    ensures var now := Repaired(decode, stem, dir, bounded);
      && now == Repaired(decode, stem, dir, final) && Holds(now, record) && OnlyTornTails(stem, final, now)
      && !NeedsRepair(decode, stem, now, final)
  {
    hide Recorded, TimeName, Holds, OnlyTornTails, PartlyRepaired, Repaired, NeedsRepair;
    SameRepairs(decode, stem, bounded, final, record, dir);
    RepairedIsRestored(decode, stem, bounded, record, dir);
    RepairsContinue(decode, stem, bounded, record, dir, Repaired(decode, stem, dir, bounded));
    SameTails(stem, bounded, final, Repaired(decode, stem, dir, bounded));
    RepairedTwice(decode, stem, final, record, dir);
  }

  lemma SameRepairs(decode: Decoder, stem: string, m: Meta, n: Meta, record: Dir, dir: Dir)
    requires TimeName(stem) && Recorded(decode, stem, m, record) && Recorded(decode, stem, n, record) && Holds(dir, record)
    requires m.sessions == n.sessions
    ensures Repaired(decode, stem, dir, n) == Repaired(decode, stem, dir, m)
  {
    hide Recorded, TimeName, Holds, PartlyRepaired, Repaired;
    RepairedIsRestored(decode, stem, m, record, dir);
    RepairedIsRestored(decode, stem, n, record, dir);
    SameKeys(decode, stem, m, dir);
    SameKeys(decode, stem, n, dir);
    assert Filenames(m) == Filenames(n);
    forall f | f in dir
      ensures Repaired(decode, stem, dir, n)[f] == Repaired(decode, stem, dir, m)[f]
    {
      assert Restored(stem, n, record, dir, f) == Restored(stem, m, record, dir, f);
    }
  }

  // ---------- Two repairs of one file ----------

  /**
   * When the recorded offset falls inside a record, the file is first cut back to the last
   * whole record. Bytes past the offset then order a second, longer length, and the file is
   * padded with zeros: the repaired file is whole exactly when there were no such bytes.
   */
  lemma TornOffsetRepairsWholeExactlyWhen(decode: Decoder, dir: Dir, s: Session)
    requires SessionGood(decode, dir, s)
    ensures Whole(decode, CutAll(dir[s.filename], SessionCuts(decode, dir, s)))
       <==> !Committed(decode, dir, s).torn || |dir[s.filename]| == s.durableOffset
  {
    hide Parse, CutAll, Whole;
    var b := dir[s.filename];
    var prefix := b[..s.durableOffset];
    var p := Parse(decode, prefix);
    CompletePartIsWhole(decode, prefix);
    OneCut(b, p.offset);
    OneCut(b, s.durableOffset);
    var cuts := SessionCuts(decode, dir, s);
    assert b[..p.offset] == prefix[..p.offset];
    if p.torn && |b| > s.durableOffset {
      TwoCuts(b, p.offset, s.durableOffset);
      PaddedIsNotWhole(decode, b[..p.offset], s.durableOffset - p.offset);
    } else if p.torn {
      assert cuts == [p.offset];
    } else {
      assert prefix[..p.offset] == prefix;
      assert cuts == if |b| > s.durableOffset then [s.durableOffset] else [];
      assert |b| == s.durableOffset ==> b == prefix;
    }
  }

  /** One such file: a whole record, a byte of a torn one up to the recorded offset, and a byte more. */
  lemma TornOffsetPadsAFile(decode: Decoder, s: Session)
    requires decode([49]) == Some(1) && s == Session("main", "main.jsonl", 1, 3)
    ensures var dir := map["main.jsonl" := [49, 10, 120, 121]];
      && SessionGood(decode, dir, s)
      && CutAll(dir[s.filename], SessionCuts(decode, dir, s)) == [49, 10, 0]
      && !Whole(decode, CutAll(dir[s.filename], SessionCuts(decode, dir, s)))
  {
    var b: Bytes := [49, 10, 120, 121];
    var dir := map["main.jsonl" := b];
    assert b[..3] == [49, 10, 120] && b[3..] == [121];
    OneRecordAndTorn(decode);
    assert SessionCuts(decode, dir, s) == [2] + [3];
    TwoCuts(b, 2, 3);
    assert b[..2] + seq(1, _ => 0) == [49, 10, 0];
    TornOffsetRepairsWholeExactlyWhen(decode, dir, s);
  }

  lemma OneRecordAndTorn(decode: Decoder)
    requires decode([49]) == Some(1)
    ensures Parse(decode, [49, 10, 120]) == Parsed(2, [1], true)
  {
    var b: Bytes := [49, 10, 120];
    assert b[1..] == [10, 120] && b[..1] == [49] && b[2..] == [120] && b[2..][1..] == [];
    assert FirstNewline(b[1..]) == Some(0) && FirstNewline(b) == Some(1);
    assert FirstNewline(b[2..]) == None;
  }

  lemma CompletePartIsWhole(decode: Decoder, b: Bytes)
    ensures Parse(decode, b).offset <= |b| && Whole(decode, b[..Parse(decode, b).offset])
    ensures Parse(decode, b).torn ==> Parse(decode, b).offset < |b|
  {
    ParseCut(decode, b, None);
    TornIsShorter(decode, b);
  }

  lemma OneCut(b: Bytes, n: nat)
    requires n <= |b|
    ensures CutAll(b, [n]) == b[..n] && CutAll(b, []) == b
  {
    assert [n][..0] == [];
  }

  lemma TwoCuts(b: Bytes, n: nat, k: nat)
    requires n <= k && n <= |b|
    ensures CutAll(b, [n] + [k]) == b[..n] + seq(k - n, _ => 0)
  {
    assert ([n] + [k])[..1] == [n];
    OneCut(b, n);
    if n == k {
      assert b[..n][..k] == b[..n] + seq(k - n, _ => 0);
    }
  }

  lemma TornIsShorter(decode: Decoder, b: Bytes)
    ensures Parse(decode, b).torn ==> Parse(decode, b).offset < |b|
  {
    ParseCut(decode, b, None);
    if Parse(decode, b).offset == |b| {
      assert b[..|b|] == b;
    }
  }

  lemma PaddedIsNotWhole(decode: Decoder, b: Bytes, n: nat)
    requires Whole(decode, b) && n > 0
    ensures !Whole(decode, b + seq(n, _ => 0))
  {
    var padded := b + seq(n, _ => 0 as Byte);
    assert padded[|padded| - 1] == 0;
    assert padded[..|padded|] == padded;
    ParseEndsLine(decode, padded, None);
  }
}
