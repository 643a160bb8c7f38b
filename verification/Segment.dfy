/** One open segment: appends, and the two ways it closes. */
module Segment {
  import opened Prelude
  import opened Jsonl
  import opened Storage
  import opened Records
  import opened SegmentLog
  import Names

  /** A capture of one session: the digest of what it shows, and its frame for a given id. */
  datatype Capture = Capture(session: string, digest: nat, frame: nat -> Bytes)

  /** The serializer writes one line that carries the id it was given. */
  ghost predicate Renders(decode: Decoder, capture: Capture) {
    forall id: nat :: IsFrame(decode, capture.frame(id), id)
  }

  datatype AppendOutcome = Appended(frameId: nat) | Unchanged

  datatype Close = FinalizedAs(name: string) | RemovedEmpty

  datatype SegmentError =
    | WasPoisoned | WasClosed | FrameIdOverflow | ActivityOffsetOverflow | Collision | Io | NotEmpty
    | Name(error: Names.NameError)
    | Storage(result: AppendResult)

  function Elapsed(now: nat, start: nat): nat {
    if now < start then 0 else now - start
  }

  /** The current entries are among those a power cut may leave. */
  predicate Tracked(disk: Disk) {
    disk.meta in disk.metaSeen && (Nowhere in disk.placeSeen ==> disk.place == Nowhere)
  }

  /** What a successful close leaves: the finalized directory with exactly the log, or nothing at all. */
  ghost predicate ClosedDisk(disk: Disk, close: Close, m: Meta, log: Dir, others: set<string>) {
    && disk.meta == None && disk.metaSeen == {None}
    && match close
       case FinalizedAs(name) =>
         && name == m.finalizedDir && name !in others
         && disk.placeSeen == {Finalized(name)} && Settled(disk.files, log) && disk.zone == Some(m.captureTime)
       case RemovedEmpty =>
         disk.placeSeen == {Nowhere} && log == map[]
  }

  class SegmentState {
    const decode: Decoder
    const stem: string
    const device: Device
    const storage: FileStorage
    /** Entries of the stream directory that belong to other segments. */
    const others: set<string>
    const startMonotonic: nat
    const interval: nat
    var metadata: Meta
    var digests: map<string, nat>
    var poisoned: bool
    var closed: Option<Close>
    /** The bytes of every append that reported success. */
    ghost var log: Dir
    ghost var pending: Option<Pending>

    constructor (decode: Decoder, stem: string, device: Device, storage: FileStorage, others: set<string>,
                 startMonotonic: nat, interval: nat, metadata: Meta)
      requires storage.device == device && storage.Valid()
      requires TimeName(stem) && device.disk.files == map[]
      requires device.disk.metaSeen == {Some(metadata)} && device.disk.meta == Some(metadata)
      requires device.disk.placeSeen == {device.disk.place} == {Incomplete}
      requires metadata == NewMetadata(stem, metadata.captureTime, interval).(lifecycle := Open)
      requires WellFormed(stem, interval, metadata)
      ensures this.decode == decode && this.stem == stem && this.interval == interval
      ensures this.device == device && this.storage == storage
      ensures this.metadata == metadata && log == map[] && pending == None && !poisoned && closed == None
      ensures Valid()
    {
      this.decode := decode;
      this.stem := stem;
      this.device := device;
      this.storage := storage;
      this.others := others;
      this.startMonotonic := startMonotonic;
      this.interval := interval;
      this.metadata := metadata;
      digests := map[];
      poisoned := false;
      closed := None;
      log := map[];
      pending := None;
      new;
      NewIsRegistered(decode, stem, metadata);
    }

    ghost predicate Valid()
      reads this, device, storage
    {
      && storage.device == device && storage.Valid()
      && Sound(decode, stem, interval, device.disk, metadata, log, pending)
      && Tracked(device.disk)
      && metadata.lifecycle != Creating
      && (!poisoned ==> pending == None)
      && (!poisoned && closed == None ==> Settled(device.disk.files, log))
    }

    /** Open, healthy, and no fault is coming: nothing stands in the way of an append. */
    predicate Writable()
      reads this, device
    {
      && device.Reliable() && device.disk.place == Incomplete && device.disk.meta.Some?
      && !poisoned && closed == None
    }

    /** What a refused or failed append leaves as it was; the same capture gets the same id again. */
    twostate predicate NothingAcknowledged()
      reads this
    {
      metadata == old(metadata) && log == old(log) && digests == old(digests) && closed == old(closed)
    }

    method AppendCapture(capture: Capture, now: nat) returns (r: Result<AppendOutcome, SegmentError>)
      requires Valid() && Renders(decode, capture)
      modifies this, device, storage
      ensures Valid()
      ensures r.Err? || r.value == Unchanged ==> NothingAcknowledged()
      ensures old(poisoned) ==> r == Err(WasPoisoned) && device.disk == old(device.disk) && poisoned
      ensures old(closed).Some? ==> r.Err? && device.disk == old(device.disk)
      ensures r.Ok? && r.value.Appended? ==>
        && r.value.frameId == old(metadata).lastFrameId + 1 == metadata.lastFrameId
        && Names.Derive(capture.session).Ok?
        && log == Extended(old(log), Names.SessionFilename(Names.Derive(capture.session).value), capture.frame(r.value.frameId))
      ensures poisoned <==> old(poisoned) || r == Err(Storage(AppendResult.Poisoned))
      ensures r == Ok(Unchanged) ==> capture.session in old(digests) && old(digests)[capture.session] == capture.digest
      ensures r.Err? && r.error.Name? ==> Names.Derive(capture.session).Err?
      ensures r == Err(FrameIdOverflow) ==> old(metadata).lastFrameId >= U64_MAX
      ensures old(Writable()) ==> Writable() && (r.Ok? || r.error.Name? || r.error == FrameIdOverflow)
      ensures old(Lines(stem, log, pending)) ==> Lines(stem, log, pending)
    {
      hide Sound, Settled, Names.Derive, IsFrame, Renders, Extended, Lines;
      if poisoned {
        return Err(WasPoisoned);
      }
      if closed.Some? {
        return Err(WasClosed);
      }
      if capture.session in digests && digests[capture.session] == capture.digest {
        return Ok(Unchanged);
      }
      var component := Names.DeriveComponent(capture.session);
      if component.Err? {
        return Err(Name(component.error));
      }
      if metadata.lastFrameId >= U64_MAX {
        return Err(FrameIdOverflow);
      }
      var result := AppendNew(capture, Names.SessionFilename(component.value), now);
      if result != Durable {
        return Err(Storage(result));
      }
      digests := digests[capture.session := capture.digest];
      return Ok(Appended(metadata.lastFrameId));
    }

    /** Renders the capture with the next id and appends it to the session's file. */
    method AppendNew(capture: Capture, filename: string, now: nat) returns (r: AppendResult)
      requires Valid() && !poisoned && closed == None
      requires FileOf(capture.session, filename) && Renders(decode, capture)
      modifies this, device, storage
      ensures Valid() && digests == old(digests) && closed == None
      ensures r == Durable ==>
        && metadata.lastFrameId == old(metadata).lastFrameId + 1
        && log == Extended(old(log), filename, capture.frame(metadata.lastFrameId))
      ensures r != Durable ==> metadata == old(metadata) && log == old(log)
      ensures poisoned <==> r == AppendResult.Poisoned
      ensures old(Writable()) ==> r == Durable && Writable()
      ensures old(Lines(stem, log, pending)) ==> Lines(stem, log, pending)
    {
      hide Sound, Settled, Registered, FileOf, IsFrame, Extended, Content, WellFormed, Lines;
      SoundRecord(decode, stem, interval, device.disk, metadata, log, pending);
      FileIsNotActivity(stem, capture.session, filename);
      var bytes := capture.frame(metadata.lastFrameId + 1);
      assert IsFrame(decode, bytes, metadata.lastFrameId + 1);
      var offset := if capture.session in metadata.sessions then metadata.sessions[capture.session].durableOffset else 0;
      var longer := RecordLength(metadata, stem, Elapsed(now, startMonotonic), interval);
      ProposedFrameIsRegistered(decode, stem, metadata, longer, log, capture.session, filename, bytes);
      var proposed := WithFrame(longer, capture.session, filename, offset + |bytes|);
      RecordLengthIsMeasured(metadata, stem, Elapsed(now, startMonotonic), interval);
      SameLengthIsMeasured(stem, interval, longer, proposed);
      r := Append(filename, offset, bytes, proposed);
    }

    method AppendActivity(bytes: Bytes, now: nat) returns (r: Result<(), SegmentError>)
      requires Valid()
      modifies this, device, storage
      ensures Valid()
      ensures r.Err? || bytes == [] ==> NothingAcknowledged()
      ensures old(poisoned) && bytes != [] ==> r == Err(WasPoisoned) && device.disk == old(device.disk)
      ensures r.Ok? && bytes != [] ==> log == Extended(old(log), ActivityName(stem), bytes)
      ensures poisoned <==> old(poisoned) || r == Err(Storage(AppendResult.Poisoned))
      ensures r == Err(ActivityOffsetOverflow) ==> old(metadata).activityOffset + |bytes| > U64_MAX
      ensures old(Writable()) ==> Writable() && (r.Ok? || r.error == ActivityOffsetOverflow)
      ensures EndsLine(bytes) && old(Lines(stem, log, pending)) ==> Lines(stem, log, pending)
    {
      hide Sound, Settled, Registered, WellFormed, Extended, Content, Lines;
      if bytes == [] {
        return Ok(());
      }
      if poisoned {
        return Err(WasPoisoned);
      }
      if closed.Some? {
        return Err(WasClosed);
      }
      SoundRecord(decode, stem, interval, device.disk, metadata, log, pending);
      ActivityOffsetIsLength(decode, stem, metadata, log);
      var offset := metadata.activityOffset;
      if offset + |bytes| > U64_MAX {
        return Err(ActivityOffsetOverflow);
      }
      var longer := RecordLength(metadata, stem, Elapsed(now, startMonotonic), interval);
      SameRecordKeepsRegistered(decode, stem, metadata, longer, log);
      ActivityKeepsRecord(decode, stem, longer, log, bytes);
      RecordLengthIsMeasured(metadata, stem, Elapsed(now, startMonotonic), interval);
      SameLengthIsMeasured(stem, interval, longer, longer.(activityOffset := offset + |bytes|));
      var result := Append(ActivityName(stem), offset, bytes, longer.(activityOffset := offset + |bytes|));
      return if result == Durable then Ok(()) else Err(Storage(result));
    }

    /**
     * Closes the segment under its finalized name. A failure at any step leaves every
     * acknowledged byte where it was.
     */
    method Finalize(now: nat) returns (r: Result<Close, SegmentError>)
      requires Valid()
      modifies this, device, storage
      ensures Valid()
      ensures log == old(log) && SameRecord(metadata, old(metadata)) && poisoned == old(poisoned) && pending == old(pending)
      ensures old(closed).Some? ==> r == Ok(old(closed).value) && device.disk == old(device.disk)
      ensures old(closed).None? && old(poisoned) ==> r == Err(WasPoisoned) && device.disk == old(device.disk)
      ensures r.Ok? ==> closed == Some(r.value)
      ensures old(closed).None? && r.Ok? ==> ClosedDisk(device.disk, r.value, metadata, log, others)
      ensures old(Writable()) && FinalName(stem, Elapsed(now, startMonotonic), interval) !in others ==> r.Ok?
    {
      hide Sound, Settled, Registered, WellFormed, ClosedDisk;
      if closed.Some? {
        return Ok(closed.value);
      }
      if poisoned {
        return Err(WasPoisoned);
      }
      if !metadata.hasFrames && metadata.activityOffset == 0 {
        SoundRecord(decode, stem, interval, device.disk, metadata, log, pending);
        EmptyMeansNoLog(decode, stem, metadata, log);
        r := RemoveConfirmedEmpty();
        return;
      }
      var final := RecordLength(metadata, stem, Elapsed(now, startMonotonic), interval).(lifecycle := Finalizing);
      RecordLengthIsMeasured(metadata, stem, Elapsed(now, startMonotonic), interval);
      SameLengthIsMeasured(stem, interval, RecordLength(metadata, stem, Elapsed(now, startMonotonic), interval), final);
      ghost var before := device.disk;
      var ok := device.AtomicWrite(Some(final));
      CloseStepIsSound(decode, stem, interval, before, device.disk, metadata, final, log);
      metadata := final;
      if !ok {
        return Err(Io);
      }
      before := device.disk;
      ok := storage.SyncAndClose();
      SyncedIsSettled(before, device.disk, log);
      if !ok {
        return Err(Io);
      }
      r := Rename();
    }

    /** The rename, the zone file and the removal of the metadata. */
    method Rename() returns (r: Result<Close, SegmentError>)
      requires Valid() && !poisoned && closed == None && storage.handles == {}
      modifies this, device
      ensures Valid()
      ensures log == old(log) && metadata == old(metadata) && poisoned == old(poisoned) && pending == old(pending)
      ensures r.Ok? ==> closed == Some(r.value) && ClosedDisk(device.disk, r.value, metadata, log, others)
      ensures old(device.Reliable() && device.disk.place == Incomplete) && metadata.finalizedDir !in others ==> r.Ok?
    {
      hide Sound, Settled, Registered;
      var name := metadata.finalizedDir;
      if name in others || device.disk.place == Finalized(name) {
        return Err(Collision);
      }
      if device.disk.place != Incomplete {
        return Err(Io);
      }
      ghost var before := device.disk;
      var ok := device.MoveDirectory(Finalized(name));
      CloseStepIsSound(decode, stem, interval, before, device.disk, metadata, metadata, log);
      if !ok {
        return Err(Io);
      }
      before := device.disk;
      ok := device.SyncStreamDirectory();
      CloseStepIsSound(decode, stem, interval, before, device.disk, metadata, metadata, log);
      if !ok {
        return Err(Io);
      }
      r := DropMetadata(name);
    }

    method DropMetadata(name: string) returns (r: Result<Close, SegmentError>)
      requires Valid() && !poisoned && closed == None && storage.handles == {}
      requires device.disk.place == Finalized(name) && device.disk.placeSeen == {Finalized(name)}
      requires name == metadata.finalizedDir && name !in others
      modifies this, device
      ensures Valid()
      ensures log == old(log) && metadata == old(metadata) && poisoned == old(poisoned) && pending == old(pending)
      ensures r.Ok? ==> closed == Some(r.value) && ClosedDisk(device.disk, r.value, metadata, log, others)
      ensures old(device.Reliable()) ==> r.Ok?
    {
      hide Sound, Settled, Registered;
      ghost var before := device.disk;
      var ok := device.WriteZone(metadata.captureTime);
      CloseStepIsSound(decode, stem, interval, before, device.disk, metadata, metadata, log);
      if !ok {
        return Err(Io);
      }
      before := device.disk;
      ok := device.RemoveMeta();
      CloseStepIsSound(decode, stem, interval, before, device.disk, metadata, metadata, log);
      if !ok {
        return Err(Io);
      }
      before := device.disk;
      ok := device.SyncStreamDirectory();
      CloseStepIsSound(decode, stem, interval, before, device.disk, metadata, metadata, log);
      if !ok {
        return Err(Io);
      }
      closed := Some(FinalizedAs(name));
      return Ok(FinalizedAs(name));
    }

    /**
     * Removes a segment whose metadata confirms that nothing was ever acknowledged. Files that an
     * append left behind are removed only while they are empty.
     */
    method RemoveConfirmedEmpty() returns (r: Result<Close, SegmentError>)
      requires Valid()
      modifies this, device, storage
      ensures Valid()
      ensures log == old(log) && metadata == old(metadata) && poisoned == old(poisoned) && pending == old(pending)
      ensures old(closed).Some? ==> r == Ok(old(closed).value) && device.disk == old(device.disk)
      ensures old(closed).None? && RecordsSomething(metadata) ==>
        r == Err(NotEmpty) && device.disk == old(device.disk) && closed == None
      ensures r.Ok? ==> closed == Some(r.value)
      ensures old(closed).None? && r.Ok? ==> log == map[] && ClosedDisk(device.disk, r.value, metadata, log, others)
      ensures old(closed).None? && old(device.Reliable()) && !RecordsSomething(metadata) && !poisoned ==> r.Ok?
    {
      hide Sound, Settled, Registered;
      if closed.Some? {
        return Ok(closed.value);
      }
      if RecordsSomething(metadata) {
        return Err(NotEmpty);
      }
      SoundRecord(decode, stem, interval, device.disk, metadata, log, pending);
      EmptyMeansNoLog(decode, stem, metadata, log);
      ghost var before := device.disk;
      var ok := storage.SyncAndClose();
      SyncingIsSound(decode, stem, interval, before, device.disk, metadata, log, pending);
      if !ok {
        return Err(Io);
      }
      var entries := device.disk.files.Keys;
      while entries != {}
        invariant Valid() && storage.handles == {} && closed == None && log == map[]
        invariant device.disk.files.Keys <= entries
        invariant log == old(log) && metadata == old(metadata) && poisoned == old(poisoned) && pending == old(pending)
        invariant old(device.Reliable()) ==> device.Reliable()
        decreases entries
      {
        var name :| name in entries;
        if !poisoned {
          SettledOnNothingIsEmpty(device.disk.files, name);
        }
        if name in device.disk.files && device.disk.files[name].data != [] {
          return Err(NotEmpty);
        }
        before := device.disk;
        ok := device.RemoveFile(name);
        RemovingKeepsEmpty(decode, stem, interval, before, device.disk, metadata, pending, name);
        if !ok {
          return Err(Io);
        }
        entries := entries - {name};
      }
      r := RemoveDirectory();
    }

    method RemoveDirectory() returns (r: Result<Close, SegmentError>)
      requires Valid() && closed == None && storage.handles == {}
      requires log == map[] && device.disk.files == map[]
      modifies this, device
      ensures Valid()
      ensures log == old(log) && metadata == old(metadata) && poisoned == old(poisoned) && pending == old(pending)
      ensures r.Ok? ==> closed == Some(r.value) && ClosedDisk(device.disk, r.value, metadata, log, others)
      ensures old(device.Reliable()) ==> r.Ok?
    {
      hide Sound, Settled, Registered;
      ghost var before := device.disk;
      var ok := device.MoveDirectory(Nowhere);
      LeavingIsSound(decode, stem, interval, before, device.disk, metadata, pending);
      if ok {
        before := device.disk;
        ok := device.SyncStreamDirectory();
        LeavingIsSound(decode, stem, interval, before, device.disk, metadata, pending);
      }
      if !ok {
        return Err(Io);
      }
      before := device.disk;
      ok := device.RemoveMeta();
      LeavingIsSound(decode, stem, interval, before, device.disk, metadata, pending);
      if ok {
        before := device.disk;
        ok := device.SyncStreamDirectory();
        LeavingIsSound(decode, stem, interval, before, device.disk, metadata, pending);
      }
      if !ok {
        return Err(Io);
      }
      closed := Some(RemovedEmpty);
      return Ok(RemovedEmpty);
    }

    /** The storage call both appends make, and what they do with its answer. */
    method Append(name: string, offset: nat, bytes: Bytes, proposed: Meta) returns (r: AppendResult)
      requires Valid() && !poisoned && closed == None
      requires offset == |Content(log, name)|
      requires Registered(decode, stem, proposed, Extended(log, name, bytes)) && proposed.lifecycle != Creating
      requires WellFormed(stem, interval, proposed)
      modifies this, device, storage
      ensures Valid() && digests == old(digests) && closed == None
      ensures r == Durable ==> metadata == proposed && log == Extended(old(log), name, bytes)
      ensures r != Durable ==> metadata == old(metadata) && log == old(log)
      ensures poisoned <==> r == AppendResult.Poisoned
      ensures old(Writable()) ==> r == Durable && Writable()
      ensures old(Lines(stem, log, pending)) && (name == ActivityName(stem) ==> EndsLine(bytes)) ==> Lines(stem, log, pending)
    {
      AppendKeepsLines(stem, log, name, bytes, proposed);
      hide Lines;
      hide Sound, Settled, Registered, Ready, CommittedFiles, RolledBack, OnlyTail, WellFormed;
      ghost var before := device.disk;
      SettledIsReady(before, log, name);
      r := storage.AppendFrame(name, offset, bytes, proposed);
      match r {
        case Durable =>
          DurableIsSound(decode, stem, interval, before, device.disk, metadata, log, name, bytes, proposed);
          metadata := proposed;
          log := Extended(log, name, bytes);
        case Recoverable =>
          RecoverableIsSound(decode, stem, interval, before, device.disk, metadata, log, name, bytes);
        case Unread =>
        case Poisoned =>
          PoisonedIsSound(decode, stem, interval, before, device.disk, metadata, log, name, bytes, proposed);
          poisoned := true;
          pending := Some(Pending(name, bytes, proposed));
      }
    }
  }

  /** An append that failed for good counts as pending. */
  lemma AppendKeepsLines(stem: string, log: Dir, name: string, bytes: Bytes, proposed: Meta)
    ensures Lines(stem, log, None) && (name == ActivityName(stem) ==> EndsLine(bytes)) ==>
      && Lines(stem, Extended(log, name, bytes), None)
      && Lines(stem, log, Some(Pending(name, bytes, proposed)))
  {
    hide LineWise, Extended;
    if LineWise(stem, log) && (name == ActivityName(stem) ==> EndsLine(bytes)) {
      LinesStay(stem, log, name, bytes);
    }
  }

  lemma FileIsNotActivity(stem: string, session: string, filename: string)
    requires TimeName(stem) && FileOf(session, filename)
    ensures filename != ActivityName(stem)
  {
    ActivityIsNotASession(stem, Names.Derive(session).value);
  }

  /** The name a segment is finalized under. */
  function FinalName(stem: string, elapsed: nat, interval: nat): string {
    FinalizedName(stem, SegmentLength(elapsed, interval))
  }

  lemma SettledOnNothingIsEmpty(files: map<string, File>, name: string)
    requires Settled(files, map[])
    ensures name in files ==> files[name].data == []
  {
  }

  lemma SyncedIsSettled(before: Disk, after: Disk, log: Dir)
    requires Settled(before.files, log) && SameButSynced(before, after)
    ensures Settled(after.files, log) && after == before
  {
    assert after.files == before.files;
  }

  /** Writing metadata of the same record, removing it, or moving a directory that holds bytes keeps everything. */
  lemma CloseStepIsSound(decode: Decoder, stem: string, interval: nat, before: Disk, after: Disk, m: Meta, n: Meta, log: Dir)
    requires Sound(decode, stem, interval, before, m, log, None)
    requires SameRecord(n, m) && n.lifecycle != Creating && (n == m || WellFormed(stem, interval, n))
    requires after.files == before.files && after.metaSeen <= before.metaSeen + {Some(n), None}
    requires Nowhere in after.placeSeen ==> Nowhere in before.placeSeen || NothingLogged(log)
    requires forall place :: place in after.placeSeen && place.Finalized? ==>
      place in before.placeSeen || place == Finalized(n.finalizedDir)
    ensures Sound(decode, stem, interval, after, n, log, None)
  {
    hide Registered, FilesSound, WellFormed;
    SameRecordKeepsRegistered(decode, stem, m, n, log);
    NamesStay(stem, interval, before, after, m, n);
  }

  /** New names come from the metadata. */
  lemma NamesStay(stem: string, interval: nat, before: Disk, after: Disk, m: Meta, n: Meta)
    requires NamesSound(stem, interval, before, m, None) && (n == m || WellFormed(stem, interval, n))
    requires after.metaSeen <= before.metaSeen + {Some(n), None}
    requires forall place :: place in after.placeSeen && place.Finalized? ==>
      place in before.placeSeen || place == Finalized(n.finalizedDir)
    ensures NamesSound(stem, interval, after, n, None)
  {
    forall place | place in after.placeSeen && place.Finalized?
      ensures exists elapsed: nat :: PlaceNamed(stem, interval, place, elapsed)
    {
      if place !in before.placeSeen {
        var elapsed: nat :| Measured(stem, interval, n, elapsed);
        assert PlaceNamed(stem, interval, place, elapsed);
      }
    }
  }

  /** Nothing is acknowledged, so files may go. */
  lemma RemovingKeepsEmpty(decode: Decoder, stem: string, interval: nat, before: Disk, after: Disk, m: Meta,
                           pending: Option<Pending>, name: string)
    requires Sound(decode, stem, interval, before, m, map[], pending)
    requires after == before || after == before.(files := before.files - {name})
    ensures Sound(decode, stem, interval, after, m, map[], pending)
    ensures Settled(before.files, map[]) ==> Settled(after.files, map[])
  {
    hide Registered;
  }

  /** And so may the directory and the metadata. */
  lemma LeavingIsSound(decode: Decoder, stem: string, interval: nat, before: Disk, after: Disk, m: Meta, pending: Option<Pending>)
    requires Sound(decode, stem, interval, before, m, map[], pending)
    requires after.files == before.files && after.metaSeen <= before.metaSeen + {None}
    requires forall place :: place in after.placeSeen && place.Finalized? ==> place in before.placeSeen
    ensures Sound(decode, stem, interval, after, m, map[], pending)
  {
    hide Registered, FilesSound, WellFormed, PlaceNamed;
  }

  /** An fsync keeps what a power cut may leave within the same bounds. */
  lemma SyncingIsSound(decode: Decoder, stem: string, interval: nat, before: Disk, after: Disk, m: Meta, log: Dir,
                       pending: Option<Pending>)
    requires Sound(decode, stem, interval, before, m, log, pending) && SameButSynced(before, after)
    ensures Sound(decode, stem, interval, after, m, log, pending)
    ensures Settled(before.files, log) ==> Settled(after.files, log)
  {
    hide Registered, WellFormed, PlaceNamed, MetasSound, Limit, FilesSound, SameButSynced;
    SyncedFilesAreSound(before, after, log, Limit(log, pending));
  }

  lemma SyncedFilesAreSound(before: Disk, after: Disk, log: Dir, limit: Dir)
    requires FilesSound(before.files, log, limit) && SameButSynced(before, after)
    ensures FilesSound(after.files, log, limit) && after == before.(files := after.files)
    ensures Settled(before.files, log) ==> Settled(after.files, log)
  {
    forall n | n in log
      ensures n in after.files && after.files[n].anchored && log[n] <= after.files[n].kept
    {
      assert FileOk(before.files[n]) && log[n] <= before.files[n].kept;
    }
  }

  /** Frames or activity were acknowledged, or the counts contradict that nothing was. */
  predicate RecordsSomething(m: Meta) {
    || m.hasFrames || m.activityOffset != 0 || m.frameCount != 0
    || exists k :: k in m.sessions && m.sessions[k].durableOffset != 0
  }

  /** Metadata that records nothing has an empty log. */
  lemma EmptyMeansNoLog(decode: Decoder, stem: string, m: Meta, log: Dir)
    requires Registered(decode, stem, m, log) && !m.hasFrames && m.activityOffset == 0
    ensures log == map[] && !RecordsSomething(m)
  {
    forall k | k in m.sessions
      ensures false
    {
      assert SessionRecorded(decode, k, m.sessions[k], log);
      var ids := IdsOf(decode, m, log)[k];
      assert IdAt(IdsOf(decode, m, log), k, 0, ids[0]);
    }
    assert Filenames(m) == {};
  }

  function NewMetadata(stem: string, captureTime: CaptureTime, interval: nat): Meta {
    RecordLength(
      Meta(SCHEMA_VERSION, Creating, IncompleteName(stem), "", captureTime, 0, 0, 0, false, 0, map[]),
      stem, 0, interval)
  }

  /** A segment being created has nothing to lose. */
  lemma NewIsSound(decode: Decoder, stem: string, disk: Disk, captureTime: CaptureTime, interval: nat)
    requires TimeName(stem) && disk.files == map[]
    requires var m := NewMetadata(stem, captureTime, interval);
      disk.metaSeen <= {None, Some(m), Some(m.(lifecycle := Open))}
    requires forall place :: place in disk.placeSeen ==> !place.Finalized?
    ensures Sound(decode, stem, interval, disk, NewMetadata(stem, captureTime, interval), map[], None)
  {
    var m := NewMetadata(stem, captureTime, interval);
    NewIsRegistered(decode, stem, m);
    NewIsMeasured(stem, captureTime, interval);
    hide Registered, NewMetadata, WellFormed;
    SameLengthIsMeasured(stem, interval, m, m.(lifecycle := Open));
  }

  lemma NewIsMeasured(stem: string, captureTime: CaptureTime, interval: nat)
    ensures WellFormed(stem, interval, NewMetadata(stem, captureTime, interval))
  {
    RecordLengthIsMeasured(
      Meta(SCHEMA_VERSION, Creating, IncompleteName(stem), "", captureTime, 0, 0, 0, false, 0, map[]), stem, 0, interval);
  }

  const NEW_DISK := Disk(map[], None, {None}, Nowhere, {Nowhere}, None)

  /** Metadata first, then the directory, then the open metadata. */
  method Create(decode: Decoder, stem: string, device: Device, others: set<string>, tz: Option<string>, offset: int,
                start: nat, interval: nat)
    returns (r: Result<SegmentState, SegmentError>)
    requires TimeName(stem) && device.disk == NEW_DISK
    modifies device
    ensures Held(decode, stem, interval, device.disk, map[]) && HeldInLines(decode, stem, interval, device.disk, map[])
    ensures r.Ok? ==>
      && fresh(r.value) && fresh(r.value.storage) && r.value.device == device
      && r.value.decode == decode && r.value.stem == stem && r.value.interval == interval
      && r.value.Valid() && r.value.log == map[] && r.value.pending == None && !r.value.poisoned && r.value.closed == None
    ensures old(device.Reliable()) && IncompleteName(stem) !in others && MetaName(stem) !in others ==>
      r.Ok? && r.value.Writable()
  {
    var zone := CaptureTime(if tz == Some("") then None else tz, offset);
    var metadata := NewMetadata(stem, zone, interval);
    NewIsSound(decode, stem, device.disk, zone, interval);
    if IncompleteName(stem) in others || MetaName(stem) in others {
      return Err(Collision);
    }
    hide Sound;
    var ok := device.AtomicWrite(Some(metadata));
    NewIsSound(decode, stem, device.disk, zone, interval);
    if !ok {
      return Err(Io);
    }
    ok := device.MoveDirectory(Incomplete);
    if ok {
      ok := device.SyncStreamDirectory();
    }
    NewIsSound(decode, stem, device.disk, zone, interval);
    if !ok {
      return Err(Io);
    }
    metadata := metadata.(lifecycle := Open);
    ok := device.AtomicWrite(Some(metadata));
    NewIsSound(decode, stem, device.disk, zone, interval);
    if !ok {
      return Err(Io);
    }
    NewIsMeasured(stem, zone, interval);
    SameLengthIsMeasured(stem, interval, NewMetadata(stem, zone, interval), metadata);
    var storage := new FileStorage(device);
    var segment := new SegmentState(decode, stem, device, storage, others, start, interval, metadata);
    return Ok(segment);
  }

  // ---------- Any run ----------

  datatype Step =
    | Take(capture: Capture, now: nat)
    | Note(bytes: Bytes, now: nat)
    | Close(now: nat)

  /** Captures are rendered by the serializer. */
  ghost predicate Proper(decode: Decoder, step: Step) {
    step.Take? ==> Renders(decode, step.capture)
  }

  /** The observer hands over whole activity lines. */
  predicate InLines(steps: seq<Step>) {
    forall i :: 0 <= i < |steps| && steps[i].Note? ==> EndsLine(steps[i].bytes)
  }

  /** What a step was answered. */
  datatype Reply =
    | Took(capture: Result<AppendOutcome, SegmentError>)
    | Noted(activity: Result<(), SegmentError>)
    | Closing(close: Result<Close, SegmentError>)

  /** What one answer acknowledges: the file and the bytes appended to it. */
  function Acknowledges(stem: string, step: Step, reply: Reply): seq<(string, Bytes)> {
    match (step, reply)
    case (Take(capture, _), Took(Ok(Appended(id)))) =>
      if Names.Derive(capture.session).Ok? then
        [(Names.SessionFilename(Names.Derive(capture.session).value), capture.frame(id))]
      else []
    case (Note(bytes, _), Noted(Ok(_))) => if bytes != [] then [(ActivityName(stem), bytes)] else []
    case _ => []
  }

  /** Everything the answers so far acknowledge, in order. */
  function Acknowledged(stem: string, steps: seq<Step>, replies: seq<Reply>): seq<(string, Bytes)>
    requires |replies| <= |steps|
  {
    if replies == [] then []
    else
      var n := |replies| - 1;
      Acknowledged(stem, steps, replies[..n]) + Acknowledges(stem, steps[n], replies[n])
  }

  /** Nothing but an unusable name or a full counter stood in the way. */
  predicate Taken(step: Step, reply: Reply) {
    match step
    case Take(capture, _) =>
      && reply.Took?
      && (reply.capture.Ok? || reply.capture.error == FrameIdOverflow
          || (reply.capture.error.Name? && Names.Derive(capture.session).Err?))
    case Note(_, _) => reply.Noted? && (reply.activity.Ok? || reply.activity.error == ActivityOffsetOverflow)
    case Close(_) => reply.Closing?
  }

  predicate NoCloseBefore(steps: seq<Step>, n: nat)
    requires n <= |steps|
  {
    forall i :: 0 <= i < n ==> !steps[i].Close?
  }

  /** The log that a list of acknowledged appends adds up to. */
  function Replay(acknowledged: seq<(string, Bytes)>): Dir {
    if acknowledged == [] then map[]
    else
      var last := acknowledged[|acknowledged| - 1];
      Extended(Replay(acknowledged[..|acknowledged| - 1]), last.0, last.1)
  }

  lemma ReplayOneMore(acknowledged: seq<(string, Bytes)>, name: string, bytes: Bytes)
    ensures Replay(acknowledged + [(name, bytes)]) == Extended(Replay(acknowledged), name, bytes)
  {
    assert (acknowledged + [(name, bytes)])[..|acknowledged|] == acknowledged;
  }

  /** The log after one more answer. */
  lemma ReplyExtendsReplay(stem: string, steps: seq<Step>, replies: seq<Reply>, reply: Reply)
    requires |replies| < |steps|
    ensures var before, more := Replay(Acknowledged(stem, steps, replies)), Acknowledges(stem, steps[|replies|], reply);
      && (more == [] ==> Replay(Acknowledged(stem, steps, replies + [reply])) == before)
      && (|more| == 1 ==> Replay(Acknowledged(stem, steps, replies + [reply])) == Extended(before, more[0].0, more[0].1))
  {
    hide Replay, Names.Derive;
    assert (replies + [reply])[..|replies|] == replies;
    var more := Acknowledges(stem, steps[|replies|], reply);
    if more == [] {
      assert Acknowledged(stem, steps, replies) + [] == Acknowledged(stem, steps, replies);
    } else if |more| == 1 {
      ReplayOneMore(Acknowledged(stem, steps, replies), more[0].0, more[0].1);
      assert [(more[0].0, more[0].1)] == more;
    }
  }

  /** The disk holds `log`, whatever a power cut leaves of it. */
  ghost predicate Held(decode: Decoder, stem: string, interval: nat, disk: Disk, log: Dir) {
    exists m, pending :: Sound(decode, stem, interval, disk, m, log, pending)
  }

  /** The same, and both what is acknowledged and what may follow it are whole activity lines. */
  ghost predicate HeldInLines(decode: Decoder, stem: string, interval: nat, disk: Disk, log: Dir) {
    exists m, pending :: Sound(decode, stem, interval, disk, m, log, pending) && Lines(stem, log, pending)
  }

  /** One step of a segment; the log grows by exactly what the answer acknowledges. */
  method Perform(segment: SegmentState, step: Step) returns (reply: Reply)
    requires segment.Valid() && Proper(segment.decode, step)
    modifies segment, segment.device, segment.storage
    ensures segment.Valid()
    ensures var more := Acknowledges(segment.stem, step, reply);
      && |more| <= 1
      && segment.log == if more == [] then old(segment.log) else Extended(old(segment.log), more[0].0, more[0].1)
    ensures old(Lines(segment.stem, segment.log, segment.pending)) && (step.Note? ==> EndsLine(step.bytes)) ==>
      Lines(segment.stem, segment.log, segment.pending)
    ensures old(segment.Writable()) ==> Taken(step, reply) && (step.Close? || segment.Writable())
  {
    hide Sound, Settled, WellFormed, Names.Derive, Renders, Lines, Extended;
    match step {
      case Take(capture, now) =>
        var r := segment.AppendCapture(capture, now);
        reply := Took(r);
      case Note(bytes, now) =>
        var r := segment.AppendActivity(bytes, now);
        reply := Noted(r);
      case Close(now) =>
        var r := segment.Finalize(now);
        reply := Closing(r);
    }
  }

  /**
   * Any sequence of appends and closes, under any faults and a power cut anywhere: the disk
   * holds every append that was answered with success. When no call fails, nothing but an unusable
   * name or a full counter refuses an append before the segment is closed.
   */
  method Run(decode: Decoder, stem: string, script: seq<Fault>, others: set<string>, tz: Option<string>, offset: int,
             start: nat, interval: nat, steps: seq<Step>)
    returns (disk: Disk, replies: seq<Reply>)
    requires TimeName(stem)
    requires forall i :: 0 <= i < |steps| ==> Proper(decode, steps[i])
    ensures |replies| == |steps| || replies == []
    ensures Held(decode, stem, interval, disk, Replay(Acknowledged(stem, steps, replies)))
    ensures InLines(steps) ==> HeldInLines(decode, stem, interval, disk, Replay(Acknowledged(stem, steps, replies)))
    ensures script == [] && IncompleteName(stem) !in others && MetaName(stem) !in others ==>
      && |replies| == |steps|
      && forall i :: 0 <= i < |steps| && NoCloseBefore(steps, i) ==> Taken(steps[i], replies[i])
  {
    replies := [];
    var device := new Device(script);
    var created := Create(decode, stem, device, others, tz, offset, start, interval);
    if created.Err? {
      return device.disk, replies;
    }
    hide Sound, Lines, Acknowledged, Replay, Taken, TimeName;
    replies := PerformAll(created.value, steps);
    disk := device.disk;
  }

  method PerformAll(segment: SegmentState, steps: seq<Step>) returns (replies: seq<Reply>)
    requires segment.Valid() && segment.log == map[] && segment.pending == None
    requires forall i :: 0 <= i < |steps| ==> Proper(segment.decode, steps[i])
    modifies segment, segment.device, segment.storage
    ensures segment.Valid() && |replies| == |steps|
    ensures segment.log == Replay(Acknowledged(segment.stem, steps, replies))
    ensures InLines(steps) ==> Lines(segment.stem, segment.log, segment.pending)
    ensures old(segment.Writable()) ==>
      forall i :: 0 <= i < |steps| && NoCloseBefore(steps, i) ==> Taken(steps[i], replies[i])
  {
    hide Sound, Settled, WellFormed, Lines, Proper, Acknowledged, Acknowledges, Replay, Taken, Extended;
    replies := [];
    NothingReplied(segment.stem, steps);
    for i := 0 to |steps|
      invariant segment.Valid() && |replies| == i && segment.log == Replay(Acknowledged(segment.stem, steps, replies))
      invariant InLines(steps) ==> Lines(segment.stem, segment.log, segment.pending)
      invariant old(segment.Writable()) && NoCloseBefore(steps, i) ==> segment.Writable()
      invariant old(segment.Writable()) ==>
        forall j :: 0 <= j < i && NoCloseBefore(steps, j) ==> Taken(steps[j], replies[j])
    {
      var reply := Perform(segment, steps[i]);
      ReplyExtendsReplay(segment.stem, steps, replies, reply);
      assert NoCloseBefore(steps, i + 1) ==> NoCloseBefore(steps, i);
      replies := replies + [reply];
    }
  }

  lemma NothingReplied(stem: string, steps: seq<Step>)
    ensures Replay(Acknowledged(stem, steps, [])) == map[] && Lines(stem, map[], None)
  {
  }

  lemma NewIsRegistered(decode: Decoder, stem: string, m: Meta)
    requires m.schemaVersion == SCHEMA_VERSION && m.incompleteDir == IncompleteName(stem)
    requires m.sessions == map[] && m.activityOffset == 0 && m.frameCount == 0 && m.lastFrameId == 0 && !m.hasFrames
    ensures Registered(decode, stem, m, map[])
  {
    assert Filenames(m) == {};
  }

  /** The offset the metadata holds for a session is the length of its file in the log. */
  lemma ProposedFrameIsRegistered(decode: Decoder, stem: string, m: Meta, longer: Meta, log: Dir, session: string,
                                filename: string, bytes: Bytes)
    requires TimeName(stem) && Registered(decode, stem, m, log) && m.lifecycle != Creating
    requires SameRecord(longer, m) && longer.lifecycle == m.lifecycle
    requires FileOf(session, filename) && IsFrame(decode, bytes, m.lastFrameId + 1)
    ensures var offset := if session in m.sessions then m.sessions[session].durableOffset else 0;
      && offset == |Content(log, filename)|
      && Registered(decode, stem, WithFrame(longer, session, filename, offset + |bytes|), Extended(log, filename, bytes))
  {
    hide Registered, FileOf, IsFrame, Content, Extended;
    OffsetIsLength(decode, stem, m, log, session, filename);
    SameRecordKeepsRegistered(decode, stem, m, longer, log);
    FrameKeepsRecord(decode, stem, longer, log, session, filename, bytes);
  }

  lemma OffsetIsLength(decode: Decoder, stem: string, m: Meta, log: Dir, session: string, filename: string)
    requires TimeName(stem) && Registered(decode, stem, m, log) && FileOf(session, filename)
    ensures |Content(log, filename)| == if session in m.sessions then m.sessions[session].durableOffset else 0
  {
    SessionFileIsItsOwn(decode, stem, m, log, session, filename);
    if session in m.sessions {
      assert SessionRecorded(decode, session, m.sessions[session], log);
    }
  }

  lemma ActivityOffsetIsLength(decode: Decoder, stem: string, m: Meta, log: Dir)
    requires Registered(decode, stem, m, log)
    ensures |Content(log, ActivityName(stem))| == m.activityOffset
  {
  }

  lemma SoundRecord(decode: Decoder, stem: string, interval: nat, disk: Disk, m: Meta, log: Dir, pending: Option<Pending>)
    requires Sound(decode, stem, interval, disk, m, log, pending)
    ensures TimeName(stem) && Registered(decode, stem, m, log)
  {
  }

  lemma SettledIsReady(disk: Disk, log: Dir, name: string)
    requires Settled(disk.files, log)
    ensures Ready(disk, name, |Content(log, name)|) && Before(disk, name) == Content(log, name)
  {
  }

  /** A durable append: the log grows, and the disk holds exactly the new log. */
  lemma DurableIsSound(decode: Decoder, stem: string, interval: nat, before: Disk, after: Disk, m: Meta, log: Dir,
                       name: string, bytes: Bytes, proposed: Meta)
    requires Sound(decode, stem, interval, before, m, log, None) && Settled(before.files, log)
    requires after == before.(
      files := CommittedFiles(before, name, bytes), meta := Some(proposed), metaSeen := {Some(proposed)})
    requires Registered(decode, stem, proposed, Extended(log, name, bytes))
    requires Tracked(before) && before.place == Incomplete
    requires WellFormed(stem, interval, proposed)
    ensures Tracked(after)
    ensures Settled(after.files, Extended(log, name, bytes))
    ensures Sound(decode, stem, interval, after, proposed, Extended(log, name, bytes), None)
  {
    hide Registered, WellFormed;
    CommitIsSettled(before, log, name, bytes);
    SettledIsSound(after.files, Extended(log, name, bytes));
  }

  lemma CommitIsSettled(before: Disk, log: Dir, name: string, bytes: Bytes)
    requires Settled(before.files, log)
    ensures Settled(CommittedFiles(before, name, bytes), Extended(log, name, bytes))
  {
  }

  /** A recovered append: the log is what it was. */
  lemma RecoverableIsSound(decode: Decoder, stem: string, interval: nat, before: Disk, after: Disk, m: Meta, log: Dir,
                           name: string, bytes: Bytes)
    requires Sound(decode, stem, interval, before, m, log, None) && Settled(before.files, log)
    requires Tracked(before) && after.meta in after.metaSeen
    requires RolledBack(before, after, name, bytes) && after.metaSeen <= before.metaSeen + {before.meta}
    ensures Tracked(after)
    ensures Settled(after.files, log)
    ensures Sound(decode, stem, interval, after, m, log, None)
  {
    hide Registered;
    RollbackIsSettled(before, after, log, name, bytes);
    SettledIsSound(after.files, log);
  }

  lemma RollbackIsSettled(before: Disk, after: Disk, log: Dir, name: string, bytes: Bytes)
    requires Settled(before.files, log) && RolledBack(before, after, name, bytes)
    ensures Settled(after.files, log)
  {
  }

  /** A poisoned append: the log is safe, and at most the pending bytes follow it. */
  lemma PoisonedIsSound(decode: Decoder, stem: string, interval: nat, before: Disk, after: Disk, m: Meta, log: Dir,
                        name: string, bytes: Bytes, proposed: Meta)
    requires Sound(decode, stem, interval, before, m, log, None) && Settled(before.files, log)
    requires Tracked(before) && after.meta in after.metaSeen
    requires OnlyTail(before, after, name, bytes)
    requires after.metaSeen <= before.metaSeen + {before.meta, Some(proposed)}
    requires Registered(decode, stem, proposed, Extended(log, name, bytes))
    requires WellFormed(stem, interval, proposed)
    ensures Tracked(after)
    ensures Sound(decode, stem, interval, after, m, log, Some(Pending(name, bytes, proposed)))
  {
    hide Registered, WellFormed;
    TornIsSound(before, after, log, name, bytes);
  }

  lemma TornIsSound(before: Disk, after: Disk, log: Dir, name: string, bytes: Bytes)
    requires Settled(before.files, log) && OnlyTail(before, after, name, bytes)
    ensures FilesSound(after.files, log, Extended(log, name, bytes))
  {
    forall n | n in after.files
      ensures FileOk(after.files[n]) && forall s :: s in after.files[n].seen ==> s <= Content(Extended(log, name, bytes), n)
    {
      if n != name {
        assert after.files[n] == WholeFile(Content(log, n), after.files[n].anchored);
      }
    }
  }
}
