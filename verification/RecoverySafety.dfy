/** What recovery promises about the bytes a writer acknowledged, wherever either of them is cut off. */
module RecoverySafety {
  import opened Prelude
  import opened Jsonl
  import opened Storage
  import opened Records
  import opened SegmentLog
  import opened Recovery
  import opened Validation
  import opened RecoveryRun
  import Text

  /** Every byte of `log` is still there, at the front of its file. */
  ghost predicate Holds(dir: Dir, log: Dir) {
    forall f :: f in log ==> f in dir && log[f] <= dir[f]
  }

  /** Holds `log`, and nothing that `limit` does not allow. */
  ghost predicate Between(dir: Dir, log: Dir, limit: Dir) {
    Holds(dir, log) && forall f :: f in dir ==> dir[f] <= Content(limit, f)
  }

  predicate RecordedFile(stem: string, m: Meta, f: string) {
    f in Filenames(m) || f == ActivityName(stem)
  }

  // ---------- Repairing a directory that holds what its metadata records ----------

  lemma CommittedIsLog(decode: Decoder, m: Meta, log: Dir, dir: Dir, k: string)
    requires SessionsRecorded(decode, m, log) && Holds(dir, log) && k in m.sessions
    ensures var s := m.sessions[k];
      && s.filename in dir && s.filename in log && |log[s.filename]| == s.durableOffset <= |dir[s.filename]|
      && Committed(decode, dir, s) == Parse(decode, log[s.filename])
      && Parse(decode, log[s.filename]) == Parsed(s.durableOffset, Parse(decode, log[s.filename]).ids, false)
      && LastId(Parse(decode, log[s.filename]).ids) == s.lastFrameId
  {
    hide Parse;
    var s := m.sessions[k];
    assert SessionRecorded(decode, k, s, log);
    assert Cut(dir[s.filename], s.durableOffset) == log[s.filename];
  }

  lemma CommittedIdsAreLogged(decode: Decoder, m: Meta, log: Dir, dir: Dir)
    requires SessionsRecorded(decode, m, log) && Holds(dir, log)
    ensures CommittedIds(decode, dir, m) == IdsOf(decode, m, log)
  {
    hide Parse, Committed, SessionsRecorded, Holds;
    forall k | k in m.sessions
      ensures CommittedIds(decode, dir, m)[k] == IdsOf(decode, m, log)[k]
    {
      CommittedIsLog(decode, m, log, dir, k);
    }
  }

  lemma ActivityEndWhenHeld(stem: string, m: Meta, log: Dir, dir: Dir)
    requires ActivityRecorded(stem, m, log) && Holds(dir, log)
    ensures ActivityGood(stem, dir, m) && ActivityEnd(stem, dir, m) == m.activityOffset
  {
    var name := ActivityName(stem);
    assert Cut(Content(dir, name), m.activityOffset) == Content(log, name);
  }

  /** Each recorded file is cut back to its part of the log, and no other file is touched. */
  lemma CutsWhenHeld(decode: Decoder, stem: string, m: Meta, log: Dir, dir: Dir, f: string)
    requires TimeName(stem) && Recorded(decode, stem, m, log) && Holds(dir, log)
    ensures var n := |Content(log, f)|;
      Cuts(decode, stem, dir, m, f) == if RecordedFile(stem, m, f) && |Content(dir, f)| > n then [n] else []
  {
    hide Partition, IdsOf, NothingElse, CountsAgree, Parse, SessionsRecorded, Holds, ActivityRecorded;
    ActivityEndWhenHeld(stem, m, log, dir);
    if f == ActivityName(stem) {
      ActivityLength(stem, m, log);
    } else if k :| k in m.sessions && m.sessions[k].filename == f {
      forall l | l in m.sessions && m.sessions[l].filename == f
        ensures SessionCuts(decode, dir, m.sessions[l])
             == if |Content(dir, f)| > |Content(log, f)| then [|Content(log, f)|] else []
      {
        CommittedIsLog(decode, m, log, dir, l);
      }
    }
  }

  lemma ActivityLength(stem: string, m: Meta, log: Dir)
    requires ActivityRecorded(stem, m, log)
    ensures |Content(log, ActivityName(stem))| == m.activityOffset
  {
  }

  /** A file after the repairs. */
  function Restored(stem: string, m: Meta, log: Dir, dir: Dir, f: string): Bytes {
    if RecordedFile(stem, m, f) then Content(log, f) else Content(dir, f)
  }

  lemma CutToLog(decode: Decoder, stem: string, m: Meta, log: Dir, dir: Dir, f: string, j: nat)
    requires TimeName(stem) && Recorded(decode, stem, m, log) && Holds(dir, log) && f in dir
    requires j <= |Cuts(decode, stem, dir, m, f)|
    ensures var now := CutAll(dir[f], Cuts(decode, stem, dir, m, f)[..j]);
      && (now == dir[f] || now == Restored(stem, m, log, dir, f))
      && (j == |Cuts(decode, stem, dir, m, f)| ==> now == Restored(stem, m, log, dir, f))
  {
    hide Recorded, Cuts, RecordedFile;
    CutsWhenHeld(decode, stem, m, log, dir, f);
    var cuts, n := Cuts(decode, stem, dir, m, f), |Content(log, f)|;
    assert Content(log, f) <= dir[f];
    if RecordedFile(stem, m, f) && |dir[f]| > n {
      assert cuts == [n];
      assert j == 1 ==> cuts[..j] == [n];
      assert CutAll(dir[f], [n]) == Resize(CutAll(dir[f], [n][..0]), n) == dir[f][..n];
    }
  }

  /** Wherever the repairs are cut off, every file is as it was or exactly what is recorded. */
  lemma RepairsRestore(decode: Decoder, stem: string, m: Meta, log: Dir, dir: Dir, now: Dir)
    requires TimeName(stem) && Recorded(decode, stem, m, log) && Holds(dir, log)
    requires PartlyRepaired(decode, stem, dir, m, now)
    ensures now.Keys == dir.Keys
    ensures forall f :: f in dir ==> now[f] == dir[f] || now[f] == Restored(stem, m, log, dir, f)
  {
    hide Recorded, Cuts, CutAll, Restored;
    forall f | f in dir
      ensures now[f] == dir[f] || now[f] == Restored(stem, m, log, dir, f)
    {
      var j: nat :| j <= |Cuts(decode, stem, dir, m, f)| && now[f] == CutAll(dir[f], Cuts(decode, stem, dir, m, f)[..j]);
      CutToLog(decode, stem, m, log, dir, f, j);
    }
  }

  lemma RepairedIsRestored(decode: Decoder, stem: string, m: Meta, log: Dir, dir: Dir)
    requires TimeName(stem) && Recorded(decode, stem, m, log) && Holds(dir, log)
    ensures PartlyRepaired(decode, stem, dir, m, Repaired(decode, stem, dir, m))
    ensures forall f :: f in dir ==> Repaired(decode, stem, dir, m)[f] == Restored(stem, m, log, dir, f)
  {
    hide Recorded, Cuts, CutAll, Restored;
    forall f | f in dir
      ensures Repaired(decode, stem, dir, m)[f] == Restored(stem, m, log, dir, f)
      ensures PartlyCut(dir[f], Cuts(decode, stem, dir, m, f), Repaired(decode, stem, dir, m)[f])
    {
      var cuts := Cuts(decode, stem, dir, m, f);
      assert cuts[..|cuts|] == cuts;
      CutToLog(decode, stem, m, log, dir, f, |cuts|);
    }
  }

  /** The metadata after the repairs records the same bytes. */
  lemma UpdatedIsSameRecord(decode: Decoder, stem: string, m: Meta, log: Dir, dir: Dir, n: nat)
    requires TimeName(stem) && Recorded(decode, stem, m, log) && Holds(dir, log)
    requires Partition(CommittedIds(decode, dir, m), n)
    ensures Updated(decode, stem, dir, m, n) == m
  {
    hide Partition, IdsOf, NothingElse, Parse, SessionsRecorded, Holds, ActivityRecorded, CommittedIds, NeedsRepair;
    CommittedIdsAreLogged(decode, m, log, dir);
    PartitionIsUnique(IdsOf(decode, m, log), n, m.frameCount);
    ActivityEndWhenHeld(stem, m, log, dir);
    forall k | k in m.sessions
      ensures UpdatedSession(decode, dir, m.sessions[k]) == m.sessions[k]
    {
      CommittedIsLog(decode, m, log, dir, k);
    }
    assert (map k | k in m.sessions :: UpdatedSession(decode, dir, m.sessions[k])) == m.sessions;
  }

  /** Once validation passes, whatever the metadata records is in the directory. */
  lemma ValidFilesHold(decode: Decoder, stem: string, m: Meta, record: Dir, log: Dir, limit: Dir, dir: Dir, n: nat)
    requires TimeName(stem) && Recorded(decode, stem, m, record) && (record == log || record == limit)
    requires Between(dir, log, limit) && Valid(decode, stem, dir, m, n)
    ensures Holds(dir, record)
  {
    hide Partition, CommittedIds, IdsOf, Committed, Parse;
    forall f | f in record
      ensures f in dir && record[f] <= dir[f]
    {
      if f in Filenames(m) {
        var k :| k in m.sessions && m.sessions[k].filename == f;
        assert SessionRecorded(decode, k, m.sessions[k], record) && SessionGood(decode, dir, m.sessions[k]);
      } else {
        assert f == ActivityName(stem) && Content(dir, f) != [];
      }
    }
  }

  // ---------- Nothing acknowledged is lost ----------

  predicate Within(log: Dir, limit: Dir) {
    forall f :: f in log ==> f in limit && log[f] <= limit[f]
  }

  /** Recovery only ever looks at directories whose name ends this way. */
  predicate Shelved(name: string) {
    |name| < 11 || name[|name| - 11..] != ".incomplete"
  }

  /** The metadata on disk, when it decodes, records `log` or everything up to `limit`. */
  ghost predicate RecordsEither(decode: Decoder, t: Tree, stem: string, log: Dir, limit: Dir) {
    MetaName(stem) in t.metas && t.metas[MetaName(stem)].Record? ==>
      var m := t.metas[MetaName(stem)].meta;
      Recorded(decode, stem, m, log) || Recorded(decode, stem, m, limit)
  }

  ghost predicate Recordable(decode: Decoder, stem: string, log: Dir) {
    exists m :: Recorded(decode, stem, m, log)
  }

  /** A segment whose writer stopped, still under its incomplete name. */
  ghost predicate Interrupted(decode: Decoder, t: Tree, stem: string, log: Dir, limit: Dir) {
    && TimeName(stem) && Within(log, limit) && Recordable(decode, stem, limit)
    && IncompleteName(stem) in t.dirs && Between(t.dirs[IncompleteName(stem)], log, limit)
    && RecordsEither(decode, t, stem, log, limit)
  }

  /** Every byte of `log` is in one directory: the interrupted one, or one that recovery is done with. */
  ghost predicate Safe(decode: Decoder, t: Tree, stem: string, log: Dir, limit: Dir) {
    || NothingLogged(log)
    || Interrupted(decode, t, stem, log, limit)
    || exists d :: d in t.dirs && Shelved(d) && Holds(t.dirs[d], log)
  }

  lemma IncompleteIsNotShelved(stem: string)
    ensures !Shelved(IncompleteName(stem))
  {
  }

  lemma FailedIsShelved(stem: string, n: nat)
    ensures Shelved(FailedName(stem, n))
  {
    var name := FailedName(stem, n);
    assert name[|name| - 7..] == ".failed";
    assert |name| >= 11 ==> name[|name| - 7] == name[|name| - 11..][4];
  }

  lemma FinalizedIsShelved(stem: string, seconds: nat)
    ensures Shelved(FinalizedName(stem, seconds))
  {
    var name := FinalizedName(stem, seconds);
    var digits := Text.Padded(seconds, 3);
    assert '0' <= digits[|digits| - 1] <= '9';
    assert name[|name| - 1] == digits[|digits| - 1];
    assert |name| >= 11 ==> name[|name| - 1] == name[|name| - 11..][10];
  }

  /** Repairs keep an interrupted directory between the same bounds. */
  lemma RepairsStayBetween(decode: Decoder, stem: string, m: Meta, record: Dir, log: Dir, limit: Dir, dir: Dir, now: Dir)
    requires TimeName(stem) && Recorded(decode, stem, m, record) && (record == log || record == limit)
    requires Within(log, limit) && Between(dir, log, limit) && Holds(dir, record)
    requires PartlyRepaired(decode, stem, dir, m, now)
    ensures Between(now, log, limit)
  {
    hide Recorded, PartlyRepaired;
    RepairsRestore(decode, stem, m, record, dir, now);
    forall f | f in dir
      ensures (f in log ==> log[f] <= now[f]) && now[f] <= Content(limit, f)
    {
      RestoredStaysBetween(decode, stem, m, record, log, limit, dir, f);
    }
  }

  lemma RestoredStaysBetween(decode: Decoder, stem: string, m: Meta, record: Dir, log: Dir, limit: Dir, dir: Dir, f: string)
    requires Recorded(decode, stem, m, record) && (record == log || record == limit)
    requires Within(log, limit) && Between(dir, log, limit) && Holds(dir, record) && f in dir
    ensures (f in log ==> log[f] <= Restored(stem, m, record, dir, f)) && Restored(stem, m, record, dir, f) <= Content(limit, f)
  {
    hide Recorded, RecordedFile;
    assert Restored(stem, m, record, dir, f) == Content(record, f) || Restored(stem, m, record, dir, f) == dir[f];
  }

  /** A record of nothing means that nothing was acknowledged. */
  lemma EmptyRecordMeansNothingLogged(decode: Decoder, stem: string, m: Meta, record: Dir, log: Dir, limit: Dir)
    requires Recorded(decode, stem, m, record) && (record == log || record == limit) && Within(log, limit)
    requires EmptyRecord(m)
    ensures NothingLogged(log) && m.sessions == map[]
  {
    hide Partition, IdsOf, Parse;
    forall k | k in m.sessions
      ensures false
    {
      assert SessionRecorded(decode, k, m.sessions[k], record);
      EmptyHasNoIds(decode);
    }
    assert Filenames(m) == {};
    assert record == map[];
  }

  lemma EmptyHasNoIds(decode: Decoder)
    ensures Parse(decode, []).ids == []
  {
  }

  /** A record of something is past its creation. */
  lemma RecordPastCreation(decode: Decoder, stem: string, m: Meta, record: Dir)
    requires Recorded(decode, stem, m, record) && !EmptyRecord(m)
    ensures m.lifecycle != Creating
  {
    hide Parse;
    var ids := IdsOf(decode, m, record);
    if m.frameCount > 0 {
      assert Present(ids, m.frameCount);
      var k, i: nat :| IdAt(ids, k, i, m.frameCount);
      assert k in m.sessions;
    }
  }

  lemma BoundedIsRecorded(decode: Decoder, stem: string, m: Meta, record: Dir, elapsed: nat, interval: nat)
    requires Recorded(decode, stem, m, record) && !EmptyRecord(m)
    ensures Recorded(decode, stem, RecordLength(m, stem, elapsed, interval), record)
    ensures Recorded(decode, stem, RecordLength(m, stem, elapsed, interval).(lifecycle := Finalizing), record)
  {
    RecordPastCreation(decode, stem, m, record);
    SameRecordKeepsRecorded(decode, stem, m, RecordLength(m, stem, elapsed, interval), record);
    SameRecordKeepsRecorded(decode, stem, m, RecordLength(m, stem, elapsed, interval).(lifecycle := Finalizing), record);
  }

  // ---------- Each way recovery can go ----------

  lemma QuarantiningIsSafe(decode: Decoder, t: Tree, stem: string, log: Dir, limit: Dir, now: Tree)
    requires Interrupted(decode, t, stem, log, limit) && Quarantining(t, stem, now)
    ensures Safe(decode, now, stem, log, limit)
  {
    hide Between, Recordable, Recorded, FailedName, FailedMeta, TimeName, IncompleteName, MetaName, Shelved;
    var n :| FirstFree(t, stem, n) && QuarantiningAs(t, stem, n, now);
    if now == MetaAside(t, stem, n) {
      FailedMetaIsNoMetaName(stem, n, stem);
    } else if now != t {
      FailedIsShelved(stem, n);
      BetweenHolds(t.dirs[IncompleteName(stem)], log, limit);
      assert FailedName(stem, n) in now.dirs;
    }
  }

  lemma BetweenHolds(dir: Dir, log: Dir, limit: Dir)
    requires Between(dir, log, limit)
    ensures Holds(dir, log)
  {
  }

  lemma RepairingIsSafe(decode: Decoder, t: Tree, stem: string, m: Meta, record: Dir, log: Dir, limit: Dir, now: Tree)
    requires Interrupted(decode, t, stem, log, limit) && Recorded(decode, stem, m, record) && (record == log || record == limit)
    requires Holds(t.dirs[IncompleteName(stem)], record)
    requires Repairing(decode, t, stem, m, now)
    ensures Interrupted(decode, now, stem, log, limit)
  {
    hide Between, Recorded, Recordable, PartlyRepaired, TimeName, Within, Holds, IncompleteName, MetaName;
    var dir :| PartlyRepaired(decode, stem, t.dirs[IncompleteName(stem)], m, dir) && now == WithDir(t, IncompleteName(stem), dir);
    RepairsStayBetween(decode, stem, m, record, log, limit, t.dirs[IncompleteName(stem)], dir);
  }

  lemma ClosingIsSafe(decode: Decoder, t: Tree, stem: string, dir: Dir, final: Meta, seconds: nat, record: Dir, log: Dir,
                      limit: Dir, now: Tree)
    requires Interrupted(decode, t, stem, log, limit)
    requires Recorded(decode, stem, final, record) && (record == log || record == limit) && Between(dir, log, limit)
    requires final.finalizedDir == FinalizedName(stem, seconds)
    requires Closing(t, stem, dir, final, now)
    ensures Safe(decode, now, stem, log, limit)
  {
    hide Between, Recorded, Recordable, TimeName, Within, IncompleteName, MetaName, Shelved, FinalizedName;
    FinalizedIsShelved(stem, seconds);
    BetweenHolds(dir, log, limit);
    if now != Written(t, stem, dir, final) {
      assert now.dirs[final.finalizedDir] == dir;
    }
  }

  lemma FinishingIsSafe(decode: Decoder, t: Tree, stem: string, m: Meta, seconds: nat, record: Dir, log: Dir, limit: Dir, now: Tree)
    requires Interrupted(decode, t, stem, log, limit)
    requires Recorded(decode, stem, m, record) && Recorded(decode, stem, m.(lifecycle := Finalizing), record)
    requires record == log || record == limit
    requires m.finalizedDir == FinalizedName(stem, seconds)
    requires Finishing(decode, t, stem, m, now)
    ensures Safe(decode, now, stem, log, limit)
  {
    hide Between, Recorded, Recordable, TimeName, Within, IncompleteName, MetaName, Shelved, FinalizedName, Valid, Updated, Repairing,
         Closing, Quarantining, RecordsEither, Repaired, PartlyRepaired;
    var dir := t.dirs[IncompleteName(stem)];
    if n :| Valid(decode, stem, dir, m, n) {
      FinishFor(decode, t, stem, m, n, now);
      ValidFilesHold(decode, stem, m, record, log, limit, dir, n);
      if Repairing(decode, t, stem, m, now) {
        RepairingIsSafe(decode, t, stem, m, record, log, limit, now);
      } else {
        FinalIsRecorded(decode, stem, m, record, dir, n);
        RepairedIsRestored(decode, stem, m, record, dir);
        RepairsStayBetween(decode, stem, m, record, log, limit, dir, Repaired(decode, stem, dir, m));
        ClosingIsSafe(decode, t, stem, Repaired(decode, stem, dir, m), m.(lifecycle := Finalizing), seconds, record, log,
                      limit, now);
      }
    } else {
      QuarantiningIsSafe(decode, t, stem, log, limit, now);
    }
  }

  lemma FinalIsRecorded(decode: Decoder, stem: string, m: Meta, record: Dir, dir: Dir, n: nat)
    requires TimeName(stem) && Recorded(decode, stem, m, record) && Holds(dir, record)
    requires Valid(decode, stem, dir, m, n)
    ensures Updated(decode, stem, dir, m, n) == m
  {
    hide Recorded, Partition, CommittedIds, Updated;
    UpdatedIsSameRecord(decode, stem, m, record, dir, n);
  }

  /** Recovery of an interrupted segment, cut off anywhere, keeps every acknowledged byte. */
  lemma RecoveryIsSafe(decode: Decoder, t: Tree, stem: string, interval: nat, log: Dir, limit: Dir, now: Tree)
    requires Interrupted(decode, t, stem, log, limit)
    requires Reached(decode, t, stem, interval, now)
    ensures Safe(decode, now, stem, log, limit)
  {
    hide Between, Recorded, Recordable, TimeName, Within, IncompleteName, MetaName, Shelved, Quarantining, Finishing, ClearedReached,
         MetaConsistent, RecordLength, EmptyRecord, Holds, NothingLogged;
    if MetaName(stem) in t.metas {
      if t.metas[MetaName(stem)].Torn? || !MetaConsistent(t.metas[MetaName(stem)].meta, stem) {
        QuarantiningIsSafe(decode, t, stem, log, limit, now);
      } else {
        var m := t.metas[MetaName(stem)].meta;
        SourceIsSafe(decode, t, stem, m, interval, log, limit, now);
      }
    }
  }

  lemma SourceIsSafe(decode: Decoder, t: Tree, stem: string, m: Meta, interval: nat, log: Dir, limit: Dir, now: Tree)
    requires Interrupted(decode, t, stem, log, limit)
    requires Recorded(decode, stem, m, log) || Recorded(decode, stem, m, limit)
    requires SourceReached(decode, t, stem, RecordLength(m, stem, m.elapsedNanos, interval), now)
    ensures Safe(decode, now, stem, log, limit)
  {
    hide Between, Recorded, Recordable, TimeName, Within, IncompleteName, MetaName, Shelved, Finishing, ClearedReached, NothingLogged,
         RecordsEither, FinalizedName, SegmentLength;
    var record := if Recorded(decode, stem, m, log) then log else limit;
    var bounded := RecordLength(m, stem, m.elapsedNanos, interval);
    if EmptyRecord(m) {
      EmptyRecordMeansNothingLogged(decode, stem, m, record, log, limit);
    } else if now != t {
      BoundedIsRecorded(decode, stem, m, record, m.elapsedNanos, interval);
      FinishingIsSafe(decode, t, stem, bounded, SegmentLength(m.elapsedNanos, interval), record, log, limit, now);
    }
  }

  // ---------- Several segments, any number of interrupted recoveries ----------

  /** Recovery of one candidate leaves everything of the others alone. */
  ghost predicate OthersStay(t: Tree, stem: string, now: Tree) {
    && (forall d :: d in t.dirs && d != IncompleteName(stem) ==> d in now.dirs && now.dirs[d] == t.dirs[d])
    && (forall s: string :: s != stem ==> Lookup(now.metas, MetaName(s)) == Lookup(t.metas, MetaName(s)))
  }

  lemma MetaNamesDiffer(a: string, b: string)
    requires MetaName(a) == MetaName(b)
    ensures a == b
  {
    assert MetaName(a)[..|MetaName(a)| - 16] == a;
    assert MetaName(b)[..|MetaName(b)| - 16] == b;
  }

  lemma FailedMetaIsNoMetaName(stem: string, n: nat, s: string)
    ensures FailedMeta(stem, n) != MetaName(s)
  {
    var x, y := FailedMeta(stem, n), MetaName(s);
    assert x[|x| - 6] == FailedName(stem, n)[|x| - 6] == 'd';
    assert y[|y| - 6] == 'e';
    assert x[|x| - 7] == FailedName(stem, n)[|x| - 7] == 'e';
    assert y[|y| - 7] == 't';
  }

  lemma QuarantiningLeavesOthers(t: Tree, stem: string, now: Tree)
    requires Quarantining(t, stem, now)
    ensures OthersStay(t, stem, now)
  {
    hide FailedName, FailedMeta, IncompleteName, MetaName;
    var n :| FirstFree(t, stem, n) && QuarantiningAs(t, stem, n, now);
    forall s: string | s != stem
      ensures Lookup(now.metas, MetaName(s)) == Lookup(t.metas, MetaName(s))
    {
      if MetaName(s) == MetaName(stem) {
        MetaNamesDiffer(s, stem);
      }
      FailedMetaIsNoMetaName(stem, n, s);
    }
  }

  /** Changes confined to the directory and metadata of `stem`, and to names that were free. */
  lemma OwnChangesLeaveOthers(t: Tree, stem: string, now: Tree)
    requires forall d :: d in t.dirs && d != IncompleteName(stem) ==> d in now.dirs && now.dirs[d] == t.dirs[d]
    requires forall k :: k != MetaName(stem) ==> Lookup(now.metas, k) == Lookup(t.metas, k)
    ensures OthersStay(t, stem, now)
  {
    hide IncompleteName, MetaName;
    forall s: string | s != stem
      ensures Lookup(now.metas, MetaName(s)) == Lookup(t.metas, MetaName(s))
    {
      if MetaName(s) == MetaName(stem) {
        MetaNamesDiffer(s, stem);
      }
    }
  }

  lemma FinishingLeavesOthers(decode: Decoder, t: Tree, stem: string, m: Meta, now: Tree)
    requires IncompleteName(stem) in t.dirs && !Taken(t, m.finalizedDir)
    requires Finishing(decode, t, stem, m, now)
    ensures OthersStay(t, stem, now)
  {
    hide IncompleteName, MetaName, Valid, Quarantining, Repaired, OthersStay, Repairing, Closing, Updated;
    var dir := t.dirs[IncompleteName(stem)];
    if n :| Valid(decode, stem, dir, m, n) {
      FinishFor(decode, t, stem, m, n, now);
      if Repairing(decode, t, stem, m, now) {
        RepairingLeavesOthers(decode, t, stem, m, now);
      } else {
        UpdatedKeepsName(decode, stem, dir, m, n);
        ClosingLeavesOthers(t, stem, Repaired(decode, stem, dir, m), Updated(decode, stem, dir, m, n).(lifecycle := Finalizing), now);
      }
    } else {
      QuarantiningLeavesOthers(t, stem, now);
    }
  }

  lemma UpdatedKeepsName(decode: Decoder, stem: string, dir: Dir, m: Meta, n: nat)
    ensures Updated(decode, stem, dir, m, n).finalizedDir == m.finalizedDir
  {
    hide NeedsRepair, ActivityEnd, UpdatedSession;
  }

  lemma RepairingLeavesOthers(decode: Decoder, t: Tree, stem: string, m: Meta, now: Tree)
    requires IncompleteName(stem) in t.dirs && Repairing(decode, t, stem, m, now)
    ensures OthersStay(t, stem, now)
  {
    hide IncompleteName, MetaName, PartlyRepaired, OthersStay;
    OwnChangesLeaveOthers(t, stem, now);
  }

  lemma ClosingLeavesOthers(t: Tree, stem: string, dir: Dir, final: Meta, now: Tree)
    requires IncompleteName(stem) in t.dirs && !Taken(t, final.finalizedDir) && Closing(t, stem, dir, final, now)
    ensures OthersStay(t, stem, now)
  {
    hide IncompleteName, MetaName, OthersStay;
    OwnChangesLeaveOthers(t, stem, now);
  }

  lemma RecoveryLeavesOthers(decode: Decoder, t: Tree, stem: string, interval: nat, now: Tree)
    requires Reached(decode, t, stem, interval, now)
    ensures OthersStay(t, stem, now)
  {
    hide IncompleteName, MetaName, Quarantining, MetaConsistent, RecordLength, TimeName, SourceReached, OrphanReached, OthersStay;
    if !TimeName(stem) {
      QuarantiningLeavesOthers(t, stem, now);
    } else if MetaName(stem) !in t.metas {
      OwnChangesLeaveOthers(t, stem, now);
    } else if t.metas[MetaName(stem)].Torn? || !MetaConsistent(t.metas[MetaName(stem)].meta, stem) {
      QuarantiningLeavesOthers(t, stem, now);
    } else {
      var m := t.metas[MetaName(stem)].meta;
      if IncompleteName(stem) in t.dirs {
        SourceLeavesOthers(decode, t, stem, RecordLength(m, stem, m.elapsedNanos, interval), now);
      } else {
        OrphanLeavesOthers(decode, t, stem, m, now);
      }
    }
  }

  lemma OrphanLeavesOthers(decode: Decoder, t: Tree, stem: string, m: Meta, now: Tree)
    requires OrphanReached(decode, t, stem, m, now)
    ensures OthersStay(t, stem, now)
  {
    hide IncompleteName, MetaName, Exact, OthersStay;
    OwnChangesLeaveOthers(t, stem, now);
  }

  lemma SourceLeavesOthers(decode: Decoder, t: Tree, stem: string, m: Meta, now: Tree)
    requires IncompleteName(stem) in t.dirs && SourceReached(decode, t, stem, m, now)
    ensures OthersStay(t, stem, now)
  {
    hide IncompleteName, MetaName, Finishing, OthersStay, EmptyRecord, ClearedReached;
    if now == t {
      OwnChangesLeaveOthers(t, stem, now);
    } else if !EmptyRecord(m) {
      FinishingLeavesOthers(decode, t, stem, m, now);
    } else {
      OwnChangesLeaveOthers(t, stem, Cleared(t, stem));
      if now != Cleared(t, stem) {
        ClearedLeavesOthers(decode, Cleared(t, stem), stem, m, now);
        OthersStayTogether(t, stem, Cleared(t, stem), now);
      }
    }
  }

  lemma OthersStayTogether(t: Tree, stem: string, u: Tree, now: Tree)
    requires OthersStay(t, stem, u) && OthersStay(u, stem, now)
    ensures OthersStay(t, stem, now)
  {
  }

  lemma ClearedLeavesOthers(decode: Decoder, t: Tree, stem: string, m: Meta, now: Tree)
    requires IncompleteName(stem) in t.dirs && !Taken(t, m.finalizedDir) && ClearedReached(decode, t, stem, m, now)
    ensures OthersStay(t, stem, now)
  {
    hide IncompleteName, MetaName, Finishing, OthersStay, Quarantining, OtherActivity, AllEmpty;
    var dir := t.dirs[IncompleteName(stem)];
    if OtherActivity(stem, dir) {
      FinishingLeavesOthers(decode, t, stem, m, now);
    } else if AllEmpty(dir) {
      EmptyGoingLeavesOthers(t, stem, dir, now);
    } else {
      QuarantiningLeavesOthers(t, stem, now);
    }
  }

  lemma EmptyGoingLeavesOthers(t: Tree, stem: string, dir: Dir, now: Tree)
    requires EmptyGoing(t, stem, dir, now)
    ensures OthersStay(t, stem, now)
  {
    hide IncompleteName, MetaName, OthersStay;
    var u :| (Emptying(t, stem, dir, u) || u == WithoutDir(t, IncompleteName(stem)))
          && (now == u || now == WithoutMeta(u, MetaName(stem)));
    if Emptying(t, stem, dir, u) {
      var names :| u == WithDir(t, IncompleteName(stem), dir - names);
    }
    OwnChangesLeaveOthers(t, stem, now);
  }

  /** Recovery of any candidate keeps the bytes of every segment safe. */
  lemma RecoveryKeepsAllSafe(decode: Decoder, t: Tree, candidate: string, interval: nat, now: Tree, stem: string, log: Dir,
                             limit: Dir)
    requires Reached(decode, t, candidate, interval, now)
    requires Safe(decode, t, stem, log, limit)
    ensures Safe(decode, now, stem, log, limit)
  {
    hide Reached, Holds, Between, Recorded, Recordable, NothingLogged, Within, TimeName, MetaName;
    RecoveryLeavesOthers(decode, t, candidate, interval, now);
    if !NothingLogged(log) {
      if d :| d in t.dirs && Shelved(d) && Holds(t.dirs[d], log) {
        IncompleteIsNotShelved(candidate);
        assert d in now.dirs && Holds(now.dirs[d], log);
      } else if stem == candidate {
        RecoveryIsSafe(decode, t, stem, interval, log, limit, now);
      } else {
        OtherStaysInterrupted(decode, t, candidate, now, stem, log, limit);
      }
    }
  }

  lemma OtherStaysInterrupted(decode: Decoder, t: Tree, candidate: string, now: Tree, stem: string, log: Dir, limit: Dir)
    requires OthersStay(t, candidate, now) && stem != candidate
    requires Interrupted(decode, t, stem, log, limit)
    ensures Interrupted(decode, now, stem, log, limit)
  {
    hide Between, Recorded, Recordable, Within, TimeName, MetaName;
    assert IncompleteName(stem)[..|IncompleteName(stem)| - 11] == stem;
    assert IncompleteName(candidate)[..|IncompleteName(candidate)| - 11] == candidate;
    assert Lookup(now.metas, MetaName(stem)) == Lookup(t.metas, MetaName(stem));
  }

  ghost predicate AllStaySafe(decode: Decoder, t: Tree, now: Tree) {
    forall stem, log, limit :: Safe(decode, t, stem, log, limit) ==> Safe(decode, now, stem, log, limit)
  }

  /** The stems of everything recovery looks at. */
  function Candidates(t: Tree): set<string> {
    (set d | d in t.dirs && !Shelved(d) :: d[..|d| - 11])
    + (set k | k in t.metas && |k| >= 16 && k[|k| - 16..] == ".incomplete.meta" :: k[..|k| - 16])
  }

  /** Recovering one candidate after another. */
  ghost function RecoverAll(decode: Decoder, t: Tree, order: seq<string>, interval: nat): Tree {
    if order == [] then t
    else Recover(decode, RecoverAll(decode, t, order[..|order| - 1], interval), order[|order| - 1], interval).0
  }

  /** One startup: every candidate is recovered, until one reports an error. */
  method RecoverStream(disk: StreamDirectory, decode: Decoder, interval: nat) returns (ok: bool, order: seq<string>)
    requires disk.Settled()
    modifies disk
    ensures forall now :: now in disk.possible ==> AllStaySafe(decode, old(disk.tree), now)
    ensures disk.tree in disk.possible && (ok ==> disk.Settled())
    ensures old(disk.Reliable()) ==> ok
    ensures old(disk.Reliable()) ==> (set s | s in order) == Candidates(old(disk.tree))
    ensures old(disk.Reliable()) ==> disk.tree == RecoverAll(decode, old(disk.tree), order, interval)
  {
    hide Safe, Reached, Recover, Candidates, AllStaySafe;
    StaysSafe(decode, disk.tree);
    var stems := Candidates(disk.tree);
    ok, order := true, [];
    while stems != {} && ok
      invariant forall now :: now in disk.possible ==> AllStaySafe(decode, old(disk.tree), now)
      invariant disk.tree in disk.possible && (ok ==> disk.Settled())
      invariant old(disk.Reliable()) ==> ok && disk.Reliable()
      invariant (set s | s in order) + stems == Candidates(old(disk.tree))
      invariant old(disk.Reliable()) ==> disk.tree == RecoverAll(decode, old(disk.tree), order, interval)
      decreases stems
    {
      var stem :| stem in stems;
      ghost var t := disk.tree;
      var r := RecoverCandidate(disk, decode, stem, interval);
      RecoveryStaysSafe(decode, old(disk.tree), t, stem, interval, disk.possible);
      assert (order + [stem])[..|order|] == order;
      assert (set s | s in order + [stem]) == (set s | s in order) + {stem};
      ok := r.Ok?;
      stems, order := stems - {stem}, order + [stem];
    }
  }

  lemma StaysSafe(decode: Decoder, t: Tree)
    ensures AllStaySafe(decode, t, t)
  {
    hide Safe;
  }

  lemma RecoveryStaysSafe(decode: Decoder, start: Tree, t: Tree, stem: string, interval: nat, trees: set<Tree>)
    requires AllStaySafe(decode, start, t) && forall now :: now in trees ==> Reached(decode, t, stem, interval, now)
    ensures forall now :: now in trees ==> AllStaySafe(decode, start, now)
  {
    hide Safe, Reached;
    forall now, s, log, limit | now in trees && Safe(decode, start, s, log, limit)
      ensures Safe(decode, now, s, log, limit)
    {
      RecoveryKeepsAllSafe(decode, t, stem, interval, now, s, log, limit);
    }
  }

  /** A startup under a script; `left` is what the power cut at its end left, if there was one. */
  datatype Startup = Startup(script: seq<Outcome>, left: Option<Tree>)

  /**
   * Any number of startups, each cut off wherever its script says, by a stop of the process or by a
   * power cut that keeps any of the changes not yet fsynced.
   */
  method RecoverRepeatedly(tree: Tree, decode: Decoder, interval: nat, startups: seq<Startup>) returns (now: Tree)
    ensures AllStaySafe(decode, tree, now)
  {
    hide Safe, AllStaySafe;
    StaysSafe(decode, tree);
    now := tree;
    for i := 0 to |startups|
      invariant AllStaySafe(decode, tree, now)
    {
      ghost var before := now;
      var disk := new StreamDirectory(now, startups[i].script);
      var _, _ := RecoverStream(disk, decode, interval);
      now := if startups[i].left.Some? && startups[i].left.value in disk.possible then startups[i].left.value else disk.tree;
      StaysSafeTogether(decode, tree, before, now);
    }
  }

  lemma StaysSafeTogether(decode: Decoder, t: Tree, u: Tree, now: Tree)
    requires AllStaySafe(decode, t, u) && AllStaySafe(decode, u, now)
    ensures AllStaySafe(decode, t, now)
  {
    hide Safe;
  }
}
