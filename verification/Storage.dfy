/**
 * The disk one open segment lives on, and the storage that appends to it.
 *
 * The disk keeps what a process reads back and what a power cut is sure to spare.
 * Every disk call takes its outcome from a script, so one script is one run. A power
 * cut makes that call and all later ones fail without effect; the disk it leaves
 * behind is therefore the disk of some script, and a fact that holds after a method
 * under every script holds at every crash point inside it.
 */
module Storage {
  import opened Prelude

  datatype Lifecycle = Creating | Open | Finalizing

  datatype Session = Session(session: string, filename: string, lastFrameId: nat, durableOffset: nat)

  datatype CaptureTime = CaptureTime(tz: Option<string>, utcOffsetSeconds: int)

  datatype Meta = Meta(
    schemaVersion: nat,
    lifecycle: Lifecycle,
    incompleteDir: string,
    finalizedDir: string,
    captureTime: CaptureTime,
    elapsedNanos: nat,
    lastFrameId: nat,
    frameCount: nat,
    hasFrames: bool,
    activityOffset: nat,
    sessions: map<string, Session>)

  // ---------- Files ----------

  /**
   * `data` is what reads return. After a power cut the file holds a prefix of some
   * content in `seen` that is no shorter than `kept`. Until the directory is fsynced the
   * file itself may be gone (`anchored` is false).
   */
  datatype File = File(data: Bytes, kept: Bytes, seen: set<Bytes>, anchored: bool)

  predicate FileOk(f: File) {
    && f.data in f.seen
    && forall s :: s in f.seen ==> f.kept <= s
  }

  const NEW_FILE := File([], [], {[]}, false)

  function Appended(f: File, b: Bytes): File {
    f.(data := f.data + b, seen := f.seen + {f.data + b})
  }

  /** Cuts, or extends with zeros. */
  function Resize(b: Bytes, n: nat): (r: Bytes)
    ensures |r| == n
  {
    if n <= |b| then b[..n] else b + seq(n - |b|, _ => 0)
  }

  function Resized(f: File, n: nat): File {
    var data := Resize(f.data, n);
    f.(data := data, kept := if |f.kept| <= n then f.kept else f.kept[..n], seen := f.seen + {data})
  }

  function Synced(f: File): File {
    f.(kept := f.data, seen := {f.data})
  }

  // ---------- The disk ----------

  datatype Place = Nowhere | Incomplete | Finalized(name: string)

  /** `metaSeen` and `placeSeen` hold what a power cut may leave; the current values are among them. */
  datatype Disk = Disk(
    files: map<string, File>,
    meta: Option<Meta>,
    metaSeen: set<Option<Meta>>,
    place: Place,
    placeSeen: set<Place>,
    zone: Option<CaptureTime>)

  function WithFile(disk: Disk, name: string, f: File): Disk {
    disk.(files := disk.files[name := f])
  }

  function AnchorAll(files: map<string, File>): map<string, File> {
    map n | n in files :: files[n].(anchored := true)
  }

  function Moved(disk: Disk, place: Place): Disk {
    disk.(place := place, placeSeen := disk.placeSeen + {place})
  }

  /** A directory entry changed and not yet fsynced. */
  function WithMeta(disk: Disk, meta: Option<Meta>): Disk {
    disk.(meta := meta, metaSeen := disk.metaSeen + {meta})
  }

  datatype Fault = Clean | Fails | FailsAfter | Tears(n: nat) | PowerCut

  class Device {
    var disk: Disk
    var script: seq<Fault>
    var power: bool

    constructor (script: seq<Fault>)
      ensures disk == Disk(map[], None, {None}, Nowhere, {Nowhere}, None)
      ensures this.script == script && power
    {
      disk := Disk(map[], None, {None}, Nowhere, {Nowhere}, None);
      this.script := script;
      power := true;
    }

    /** No more faults are coming. */
    predicate Reliable()
      reads this
    {
      power && script == []
    }

    /** The outcome of the next disk call. */
    method Call() returns (fault: Fault)
      modifies this`script, this`power
      ensures old(Reliable()) ==> fault == Clean && Reliable()
      ensures !old(power) ==> fault == Fails && !power
    {
      if !power {
        return Fails;
      }
      if script == [] {
        return Clean;
      }
      fault := script[0];
      script := script[1..];
      if fault == PowerCut {
        power := false;
        fault := Fails;
      }
    }

    /** Opens a file in the segment directory, creating it when it is missing. */
    method OpenFile(name: string) returns (ok: bool)
      modifies this
      ensures old(Reliable()) ==> Reliable() && (ok <==> old(disk.place) == Incomplete)
      ensures ok ==> name in disk.files && old(disk.place) == Incomplete
      ensures disk == old(disk) || (name !in old(disk.files) && disk == WithFile(old(disk), name, NEW_FILE))
    {
      var fault := Call();
      if disk.place != Incomplete || (fault != Clean && fault != FailsAfter) {
        return false;
      }
      if name !in disk.files {
        disk := WithFile(disk, name, NEW_FILE);
      }
      return fault == Clean;
    }

    /** Writes at the end of the file; a failed write may have written part of the bytes. */
    method WriteAll(name: string, bytes: Bytes) returns (ok: bool, ghost written: nat)
      requires name in disk.files
      modifies this
      ensures old(Reliable()) ==> ok && Reliable()
      ensures written <= |bytes| && (ok ==> written == |bytes|)
      ensures disk == WithFile(old(disk), name, Appended(old(disk.files)[name], bytes[..written]))
    {
      var fault := Call();
      var n := match fault
        case Tears(n) => if n < |bytes| then n else |bytes|
        case Clean => |bytes|
        case FailsAfter => |bytes|
        case _ => 0;
      disk := WithFile(disk, name, Appended(disk.files[name], bytes[..n]));
      return fault == Clean, n;
    }

    method SetLen(name: string, n: nat) returns (ok: bool)
      requires name in disk.files
      modifies this
      ensures old(Reliable()) ==> ok && Reliable()
      ensures ok ==> disk == WithFile(old(disk), name, Resized(old(disk.files)[name], n))
      ensures disk == old(disk) || disk == WithFile(old(disk), name, Resized(old(disk.files)[name], n))
    {
      var fault := Call();
      if fault == Clean || fault == FailsAfter {
        disk := WithFile(disk, name, Resized(disk.files[name], n));
      }
      return fault == Clean;
    }

    method SyncFile(name: string) returns (ok: bool)
      requires name in disk.files
      modifies this
      ensures old(Reliable()) ==> ok && Reliable()
      ensures ok ==> disk == WithFile(old(disk), name, Synced(old(disk.files)[name]))
      ensures disk == old(disk) || disk == WithFile(old(disk), name, Synced(old(disk.files)[name]))
    {
      var fault := Call();
      if fault == Clean || fault == FailsAfter {
        disk := WithFile(disk, name, Synced(disk.files[name]));
      }
      return fault == Clean;
    }

    method SyncSegmentDirectory() returns (ok: bool)
      modifies this
      ensures old(Reliable()) ==> ok && Reliable()
      ensures ok ==> disk == old(disk).(files := AnchorAll(old(disk.files)))
      ensures disk == old(disk) || disk == old(disk).(files := AnchorAll(old(disk.files)))
    {
      var fault := Call();
      if fault == Clean || fault == FailsAfter {
        disk := disk.(files := AnchorAll(disk.files));
      }
      return fault == Clean;
    }

    /** Temporary file, fsync, rename, directory fsync. It can fail before or after the rename. */
    method AtomicWrite(meta: Option<Meta>) returns (ok: bool)
      modifies this
      ensures old(Reliable()) ==> ok && Reliable()
      ensures ok ==> disk == old(disk).(meta := meta, metaSeen := {meta})
      ensures !ok ==> disk == old(disk) || disk == WithMeta(old(disk), meta)
    {
      var temporary := Call();
      if temporary != Clean {
        return false;
      }
      var rename := Call();
      if rename != Clean {
        return false;
      }
      disk := WithMeta(disk, meta);
      var sync := Call();
      if sync != Clean {
        return false;
      }
      disk := disk.(metaSeen := {meta});
      return true;
    }

    /** Makes, renames or removes the segment directory. */
    method MoveDirectory(place: Place) returns (ok: bool)
      modifies this
      ensures old(Reliable()) ==> ok && Reliable()
      ensures ok ==> disk == Moved(old(disk), place)
      ensures disk == old(disk) || disk == Moved(old(disk), place)
    {
      var fault := Call();
      if fault == Clean || fault == FailsAfter {
        disk := Moved(disk, place);
      }
      return fault == Clean;
    }

    method RemoveFile(name: string) returns (ok: bool)
      modifies this
      ensures old(Reliable()) ==> ok && Reliable()
      ensures ok ==> disk == old(disk).(files := old(disk.files) - {name})
      ensures disk == old(disk) || disk == old(disk).(files := old(disk.files) - {name})
    {
      var fault := Call();
      if fault == Clean || fault == FailsAfter {
        disk := disk.(files := disk.files - {name});
      }
      return fault == Clean;
    }

    method RemoveMeta() returns (ok: bool)
      modifies this
      ensures old(Reliable()) ==> ok && Reliable()
      ensures ok ==> disk == WithMeta(old(disk), None)
      ensures disk == old(disk) || disk == WithMeta(old(disk), None)
    {
      var fault := Call();
      if fault == Clean || fault == FailsAfter {
        disk := WithMeta(disk, None);
      }
      return fault == Clean;
    }

    method SyncStreamDirectory() returns (ok: bool)
      modifies this
      ensures old(Reliable()) ==> ok && Reliable()
      ensures ok ==> disk == old(disk).(metaSeen := {old(disk.meta)}, placeSeen := {old(disk.place)})
      ensures disk == old(disk) || disk == old(disk).(metaSeen := {old(disk.meta)}, placeSeen := {old(disk.place)})
    {
      var fault := Call();
      if fault == Clean || fault == FailsAfter {
        disk := disk.(metaSeen := {disk.meta}, placeSeen := {disk.place});
      }
      return fault == Clean;
    }

    method WriteZone(zone: CaptureTime) returns (ok: bool)
      modifies this
      ensures old(Reliable()) ==> ok && Reliable()
      ensures disk == old(disk) || disk == old(disk).(zone := Some(zone))
      ensures ok ==> disk.zone == Some(zone)
    {
      var fault := Call();
      if fault == Clean || fault == FailsAfter {
        disk := disk.(zone := Some(zone));
      }
      return fault == Clean;
    }
  }

  // ---------- Appending ----------

  datatype AppendResult = Durable | Recoverable | Poisoned | Unread

  function Before(disk: Disk, name: string): Bytes {
    if name in disk.files then disk.files[name].data else []
  }

  /** A file whose whole content is fsynced. */
  function WholeFile(data: Bytes, anchored: bool): File {
    File(data, data, {data}, anchored)
  }

  /** The file is `offset` bytes long and fsynced; a missing file counts as empty. */
  predicate Ready(disk: Disk, name: string, offset: nat) {
    && |Before(disk, name)| == offset
    && (name in disk.files ==> disk.files[name] == WholeFile(Before(disk, name), disk.files[name].anchored))
  }

  /** The file keeps `base` whatever happens, and holds no more than `bytes` after it. */
  predicate TailFile(f: File, base: Bytes, bytes: Bytes) {
    FileOk(f) && base <= f.kept && forall s :: s in f.seen ==> s <= base + bytes
  }

  lemma WritingKeepsTail(f: File, base: Bytes, bytes: Bytes, n: nat)
    requires f == WholeFile(base, f.anchored) && n <= |bytes|
    ensures TailFile(Appended(f, bytes[..n]), base, bytes)
  {
    var written := base + bytes[..n];
    assert written == (base + bytes)[..|base| + n];
    assert base <= written;
  }

  lemma CuttingKeepsTail(f: File, base: Bytes, bytes: Bytes)
    requires TailFile(f, base, bytes)
    ensures TailFile(Resized(f, |base|), base, bytes)
    ensures Synced(Resized(f, |base|)) == WholeFile(base, f.anchored)
  {
    assert base <= f.data;
    assert f.data[..|base|] == base;
    assert |f.kept| > |base| ==> f.kept[..|base|] == base;
  }

  /** An append to `name` touched nothing else; the file itself is a TailFile. */
  predicate OnlyTail(before: Disk, after: Disk, name: string, bytes: Bytes) {
    && before.files.Keys <= after.files.Keys <= before.files.Keys + {name}
    && (forall n :: n in before.files ==>
          && (before.files[n].anchored ==> after.files[n].anchored)
          && (n != name ==> after.files[n] == before.files[n].(anchored := after.files[n].anchored)))
    && (name in after.files ==> TailFile(after.files[name], Before(before, name), bytes))
    && after == before.(files := after.files, meta := after.meta, metaSeen := after.metaSeen)
  }

  predicate SameMeta(before: Disk, after: Disk) {
    after.meta == before.meta && after.metaSeen == before.metaSeen
  }

  /** OnlyTail, and the file itself is back to what it was. */
  predicate RolledBack(before: Disk, after: Disk, name: string, bytes: Bytes) {
    && OnlyTail(before, after, name, bytes)
    && (name in after.files ==>
          after.files[name] == WholeFile(Before(before, name), after.files[name].anchored))
  }

  /** A rollback, finished or not, keeps the tail property; a finished one restores the file. */
  lemma RollbackKeeps(before: Disk, torn: Disk, after: Disk, name: string, bytes: Bytes)
    requires OnlyTail(before, torn, name, bytes)
    requires name in torn.files
    requires var cut := Resized(torn.files[name], |Before(before, name)|);
      after == torn || after == WithFile(torn, name, cut) || after == WithFile(torn, name, Synced(cut))
    ensures OnlyTail(before, after, name, bytes) && SameMeta(torn, after)
    ensures after == WithFile(torn, name, Synced(Resized(torn.files[name], |Before(before, name)|)))
        ==> RolledBack(before, after, name, bytes)
  {
    CuttingKeepsTail(torn.files[name], Before(before, name), bytes);
  }

  /** The files after an append that reported success. */
  function CommittedFiles(before: Disk, name: string, bytes: Bytes): map<string, File> {
    AnchorAll(before.files[name := WholeFile(Before(before, name) + bytes, true)])
  }

  /** The tail property does not speak of the metadata. */
  lemma OtherMetaKeepsTail(before: Disk, now: Disk, after: Disk, name: string, bytes: Bytes)
    requires OnlyTail(before, now, name, bytes) && after == now.(meta := after.meta, metaSeen := after.metaSeen)
    ensures OnlyTail(before, after, name, bytes)
    ensures RolledBack(before, now, name, bytes) ==> RolledBack(before, after, name, bytes)
  {
    hide TailFile, Before;
  }

  /** Opening alone appends nothing. */
  lemma NothingAppended(before: Disk, name: string, offset: nat, bytes: Bytes)
    ensures Ready(before, name, offset) ==> OnlyTail(before, before, name, bytes)
    ensures Ready(before, name, offset) && name !in before.files ==>
      OnlyTail(before, WithFile(before, name, NEW_FILE), name, bytes)
  {
    assert NEW_FILE == WholeFile([], false);
    WritingKeepsTail(WholeFile(Before(before, name), false), Before(before, name), bytes, 0);
    assert [] <= bytes;
  }

  /** A write, whole or torn, of a file that was ready. */
  lemma PartlyAppended(before: Disk, name: string, offset: nat, bytes: Bytes, n: nat)
    requires n <= |bytes|
    ensures Ready(before, name, offset) ==>
      OnlyTail(before, WithFile(before, name, Appended(Opened(before, name), bytes[..n])), name, bytes)
  {
    hide TailFile;
    if Ready(before, name, offset) {
      WritingKeepsTail(Opened(before, name), Before(before, name), bytes, n);
    }
  }

  /** An append that never opened the file left it as it was, or empty. */
  lemma NeverOpened(before: Disk, after: Disk, name: string, offset: nat, bytes: Bytes)
    requires Ready(before, name, offset)
    requires after == before || (name !in before.files && after == WithFile(before, name, NEW_FILE))
    ensures RolledBack(before, after, name, bytes)
  {
    hide TailFile;
    NothingAppended(before, name, offset, bytes);
  }

  /** An fsync of the file keeps the tail property. */
  lemma SyncingKeepsTail(before: Disk, written: Disk, name: string, bytes: Bytes)
    requires OnlyTail(before, written, name, bytes) && name in written.files
    ensures OnlyTail(before, WithFile(written, name, Synced(written.files[name])), name, bytes)
  {
    assert TailFile(Synced(written.files[name]), Before(before, name), bytes);
  }

  /** So does an fsync of the directory. */
  lemma AnchoringKeepsTail(before: Disk, written: Disk, name: string, bytes: Bytes)
    requires OnlyTail(before, written, name, bytes)
    ensures OnlyTail(before, written.(files := AnchorAll(written.files)), name, bytes)
  {
    hide Before;
    var after := written.(files := AnchorAll(written.files));
    assert name in written.files ==> TailFile(after.files[name], Before(before, name), bytes);
  }

  /** Together they commit the bytes. */
  lemma SyncingCommits(before: Disk, written: Disk, name: string, bytes: Bytes)
    requires name in written.files && written == WithFile(before, name, written.files[name])
    requires written.files[name] == WholeFile(Before(before, name) + bytes, written.files[name].anchored)
    ensures AnchorAll(written.files) == CommittedFiles(before, name, bytes)
  {
    hide Before;
  }

  /** The file as an append finds it: a missing one is created empty. */
  function Opened(disk: Disk, name: string): File {
    if name in disk.files then disk.files[name] else NEW_FILE
  }

  /** An append that found another length than recorded: nothing was written, and the file was resized at most. */
  predicate OnlyResized(before: Disk, after: Disk, name: string, offset: nat) {
    var f := Opened(before, name);
    || after == before
    || after == WithFile(before, name, f)
    || after == WithFile(before, name, Resized(f, offset))
    || after == WithFile(before, name, Synced(Resized(f, offset)))
  }

  class FileStorage {
    const device: Device
    var handles: set<string>

    constructor (device: Device)
      ensures this.device == device && handles == {}
    {
      this.device := device;
      handles := {};
    }

    ghost predicate Valid()
      reads this, device
    {
      handles <= device.disk.files.Keys && (handles != {} ==> device.disk.place == Incomplete)
    }

    /** Opens the file once and keeps the handle. */
    method Handle(name: string) returns (ok: bool)
      requires Valid()
      modifies this, device
      ensures Valid()
      ensures ok ==> name in handles
      ensures !ok ==> name !in handles
      ensures old(device.Reliable()) ==> device.Reliable() && (ok || old(device.disk.place) != Incomplete)
      ensures device.disk == old(device.disk)
           || (name !in old(device.disk.files) && device.disk == WithFile(old(device.disk), name, NEW_FILE))
    {
      if name in handles {
        return true;
      }
      ok := device.OpenFile(name);
      if ok {
        handles := handles + {name};
      }
    }

    /** Truncates the file back to `offset` and fsyncs it; nothing to do when it was never opened. */
    method Rollback(name: string, offset: nat) returns (ok: bool)
      requires Valid()
      modifies device
      ensures Valid()
      ensures name !in handles ==> device.disk == old(device.disk)
      ensures name in old(handles) ==>
        var f := old(device.disk.files)[name];
        && (ok ==> device.disk == WithFile(old(device.disk), name, Synced(Resized(f, offset))))
        && (device.disk == old(device.disk)
            || device.disk == WithFile(old(device.disk), name, Resized(f, offset))
            || device.disk == WithFile(old(device.disk), name, Synced(Resized(f, offset))))
    {
      if name !in handles {
        return true;
      }
      ok := device.SetLen(name, offset);
      if ok {
        ok := device.SyncFile(name);
      }
    }

    /** Opens, checks the length, writes, fsyncs the file and then its directory. */
    method AppendInner(name: string, previousOffset: nat, bytes: Bytes) returns (ok: bool)
      requires Valid()
      modifies this, device
      ensures Valid() && SameMeta(old(device.disk), device.disk)
      ensures ok ==> |Before(old(device.disk), name)| == previousOffset
      ensures ok ==> device.disk == old(device.disk).(files := CommittedFiles(old(device.disk), name, bytes))
      ensures ok ==> name in handles && old(device.disk.place) == Incomplete
      ensures |Before(old(device.disk), name)| != previousOffset ==>
        device.disk == old(device.disk) || device.disk == WithFile(old(device.disk), name, Opened(old(device.disk), name))
      ensures name !in handles ==>
        device.disk == old(device.disk) || (name !in old(device.disk.files) && device.disk == WithFile(old(device.disk), name, NEW_FILE))
      ensures old(Ready(device.disk, name, previousOffset)) ==> OnlyTail(old(device.disk), device.disk, name, bytes)
      ensures old(device.Reliable()) && |Before(old(device.disk), name)| == previousOffset ==>
        device.Reliable() && (ok || old(device.disk.place) != Incomplete)
    {
      ghost var before := device.disk;
      NothingAppended(before, name, previousOffset, bytes);
      ok := Handle(name);
      if !ok {
        return;
      }
      ghost var started := device.disk;
      assert started == before || started == WithFile(before, name, NEW_FILE);
      ok := |device.disk.files[name].data| == previousOffset;
      if ok {
        ghost var n;
        ok, n := device.WriteAll(name, bytes);
        PartlyAppended(before, name, previousOffset, bytes, n);
        assert device.disk == WithFile(before, name, Appended(Opened(before, name), bytes[..n]));
        if ok {
          assert bytes[..n] == bytes;
          ok := SyncBoth(name, bytes, before, Ready(before, name, previousOffset));
        }
      }
    }

    /** The two fsyncs that make an append durable. */
    method SyncBoth(name: string, ghost bytes: Bytes, ghost before: Disk, ghost ready: bool) returns (ok: bool)
      requires Valid() && name in device.disk.files && device.disk == WithFile(before, name, device.disk.files[name])
      requires device.disk.files[name].data == Before(before, name) + bytes
      requires ready ==> OnlyTail(before, device.disk, name, bytes)
      modifies device
      ensures Valid() && SameMeta(before, device.disk)
      ensures ready ==> OnlyTail(before, device.disk, name, bytes)
      ensures ok ==> device.disk == before.(files := CommittedFiles(before, name, bytes))
      ensures old(device.Reliable()) ==> ok && device.Reliable()
    {
      hide OnlyTail, Before;
      if ready {
        SyncingKeepsTail(before, device.disk, name, bytes);
      }
      ok := device.SyncFile(name);
      if ok {
        SyncingCommits(before, device.disk, name, bytes);
        if ready {
          AnchoringKeepsTail(before, device.disk, name, bytes);
        }
        ok := device.SyncSegmentDirectory();
      }
    }

    /**
     * One append: the bytes, then the metadata. When the bytes fail they are rolled back; when
     * the metadata fails, both are. A rollback that fails poisons the segment. A file whose length
     * is not the recorded offset is set to that length and nothing is appended.
     */
    method AppendFrame(name: string, previousOffset: nat, bytes: Bytes, proposed: Meta) returns (r: AppendResult)
      requires Valid()
      modifies this, device
      ensures Valid()
      ensures r == Unread ==> device.disk == old(device.disk)
      ensures r == Durable ==> |Before(old(device.disk), name)| == previousOffset && old(device.disk.place) == Incomplete
      ensures r == Durable ==> device.disk == old(device.disk).(
          files := CommittedFiles(old(device.disk), name, bytes), meta := Some(proposed), metaSeen := {Some(proposed)})
      ensures |Before(old(device.disk), name)| != previousOffset ==>
        SameMeta(old(device.disk), device.disk) && OnlyResized(old(device.disk), device.disk, name, previousOffset)
      ensures |Before(old(device.disk), name)| != previousOffset && r == Recoverable && name in handles ==>
        device.disk == WithFile(old(device.disk), name, Synced(Resized(Opened(old(device.disk), name), previousOffset)))
      ensures old(Ready(device.disk, name, previousOffset)) && r == Recoverable ==>
        && RolledBack(old(device.disk), device.disk, name, bytes)
        && device.disk.meta == old(device.disk.meta)
        && device.disk.metaSeen <= old(device.disk.metaSeen) + {old(device.disk.meta)}
      ensures old(Ready(device.disk, name, previousOffset)) && r == Poisoned ==>
        && OnlyTail(old(device.disk), device.disk, name, bytes)
        && device.disk.meta in {old(device.disk.meta), Some(proposed)}
        && device.disk.metaSeen <= old(device.disk.metaSeen) + {old(device.disk.meta), Some(proposed)}
      ensures old(device.Reliable() && device.disk.place == Incomplete && device.disk.meta.Some?) ==>
        |Before(old(device.disk), name)| == previousOffset ==> r == Durable && device.Reliable()
      ensures old(device.disk.meta in device.disk.metaSeen) ==> device.disk.meta in device.disk.metaSeen
    {
      hide OnlyTail, Resized, CommittedFiles, Before, TailFile;
      ghost var before, ready := device.disk, Ready(device.disk, name, previousOffset);
      var previousMeta := device.disk.meta;
      var read := device.Call();
      if read != Clean || previousMeta.None? {
        return Unread;
      }
      var appended := AppendInner(name, previousOffset, bytes);
      if !appended {
        r := UndoAppend(name, previousOffset, bytes, before, ready);
      } else {
        r := RecordAppend(name, previousOffset, bytes, previousMeta, proposed, before, ready);
      }
    }

    /** The bytes could not be appended. */
    method UndoAppend(name: string, previousOffset: nat, ghost bytes: Bytes, ghost before: Disk, ghost ready: bool)
      returns (r: AppendResult)
      requires Valid() && SameMeta(before, device.disk) && (ready ==> Ready(before, name, previousOffset))
      requires ready ==> OnlyTail(before, device.disk, name, bytes)
      requires |Before(before, name)| != previousOffset ==>
        device.disk == before || device.disk == WithFile(before, name, Opened(before, name))
      requires name !in handles ==>
        device.disk == before || (name !in before.files && device.disk == WithFile(before, name, NEW_FILE))
      modifies device
      ensures Valid() && SameMeta(before, device.disk) && (r == Recoverable || r == Poisoned)
      ensures |Before(before, name)| != previousOffset ==> OnlyResized(before, device.disk, name, previousOffset)
      ensures |Before(before, name)| != previousOffset && r == Recoverable && name in handles ==>
        device.disk == WithFile(before, name, Synced(Resized(Opened(before, name), previousOffset)))
      ensures ready ==> OnlyTail(before, device.disk, name, bytes)
      ensures ready && r == Recoverable ==> RolledBack(before, device.disk, name, bytes)
    {
      hide OnlyTail, Resized, TailFile;
      ghost var torn := device.disk;
      var undone := Rollback(name, previousOffset);
      if name in handles {
        if ready {
          assert |Before(before, name)| == previousOffset;
          RollbackKeeps(before, torn, device.disk, name, bytes);
        }
      } else if ready {
        NeverOpened(before, device.disk, name, previousOffset, bytes);
      }
      r := if undone then Recoverable else Poisoned;
    }

    /** The bytes are durable; now the metadata, or both are rolled back. */
    method RecordAppend(name: string, previousOffset: nat, ghost bytes: Bytes, previousMeta: Option<Meta>, proposed: Meta,
                        ghost before: Disk, ghost ready: bool) returns (r: AppendResult)
      requires Valid() && previousMeta == before.meta && name in handles && |Before(before, name)| == previousOffset
      requires device.disk == before.(files := CommittedFiles(before, name, bytes))
      requires ready ==> Ready(before, name, previousOffset) && OnlyTail(before, device.disk, name, bytes)
      modifies device
      ensures Valid() && r != Unread
      ensures r == Durable ==> device.disk == before.(
          files := CommittedFiles(before, name, bytes), meta := Some(proposed), metaSeen := {Some(proposed)})
      ensures ready && r == Recoverable ==>
        && RolledBack(before, device.disk, name, bytes)
        && device.disk.meta == before.meta && device.disk.metaSeen <= before.metaSeen + {before.meta}
      ensures ready && r == Poisoned ==>
        && OnlyTail(before, device.disk, name, bytes) && device.disk.meta in {before.meta, Some(proposed)}
        && device.disk.metaSeen <= before.metaSeen + {before.meta, Some(proposed)}
      ensures old(device.Reliable()) ==> r == Durable && device.Reliable()
      ensures before.meta in before.metaSeen ==> device.disk.meta in device.disk.metaSeen
    {
      hide OnlyTail, Resized, TailFile, CommittedFiles, RolledBack, Before;
      var recorded := device.AtomicWrite(Some(proposed));
      if recorded {
        return Durable;
      }
      ghost var torn := device.disk;
      if ready {
        OtherMetaKeepsTail(before, before.(files := torn.files), torn, name, bytes);
      }
      var json := Rollback(name, previousOffset);
      ghost var rolled := device.disk;
      if ready {
        RollbackKeeps(before, torn, rolled, name, bytes);
      }
      var metadata := device.AtomicWrite(previousMeta);
      if ready {
        OtherMetaKeepsTail(before, rolled, device.disk, name, bytes);
      }
      r := if json && metadata then Recoverable else Poisoned;
    }

    /** Fsyncs every open file and drops the handles, even when an fsync fails. */
    method SyncAndClose() returns (ok: bool)
      requires Valid()
      modifies this, device
      ensures Valid() && handles == {}
      ensures SameButSynced(old(device.disk), device.disk)
      ensures old(device.Reliable()) ==> ok && device.Reliable()
    {
      var open := handles;
      handles := {};
      ok := true;
      while open != {} && ok
        invariant handles == {}
        invariant open <= device.disk.files.Keys
        invariant SameButSynced(old(device.disk), device.disk)
        invariant old(device.Reliable()) ==> ok && device.Reliable()
        decreases open
      {
        var name :| name in open;
        ok := device.SyncFile(name);
        open := open - {name};
      }
    }
  }

  /** Some files were fsynced; nothing else changed. */
  predicate SameButSynced(before: Disk, after: Disk) {
    && after == before.(files := after.files)
    && after.files.Keys == before.files.Keys
    && forall n :: n in before.files ==> after.files[n] == before.files[n] || after.files[n] == Synced(before.files[n])
  }
}
