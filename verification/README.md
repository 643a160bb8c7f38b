# solstone-tmux, modelled in Dafny

solstone-tmux captures terminal frames into local segments that survive a crash, uploads them to
a journal, and deletes them once the journal has proved that it keeps them. This project models
the parts of `native/solstone-tmux` where that promise is made or could be broken, and proves it.

## What is modelled

- **The segment log** (`Storage`, `Records`, `SegmentLog`, `Segment`). One segment on a disk that
  keeps, for every file and directory entry, what reads return and what a power cut may leave.
  `FileStorage` and `SegmentState` are classes that append, roll back, poison, finalize and remove
  in place. Every disk call takes its outcome from a script, so a fact that holds after a method
  for every script holds at every crash point inside it. The ghost `log` is the bytes of every
  append that reported success.
- **Recovery** (`Jsonl`, `Numbering`, `Recovery`, `Validation`, `RecoveryRun`). `Recovery` says
  what recovery does as a function of the stream directory; `Validation` and `RecoveryRun` do it
  with the loops and disk steps of the source, each of which may be refused, fail late, or be the
  last before the machine stops. Until an fsync, a power cut may keep any of the changes since the
  last one and lose the others. `Reached` lists the states in which a run can be cut off.
- **Crash safety** (`RecoverySafety`, `CrashRecovery`, `Restart`). From the writer's disk through
  a power cut and any number of interrupted recoveries to what is finalized.
- **Custody** (`Receipt`, `Removal`, `CustodyLaw`, `Custody`, `Fence`). Receipts and
  acknowledgements, the removal of one segment over an inode heap with interference before every
  file, runs of sweeps, local finishes, re-pairings and restarts, and the fence that ends removals
  at shutdown. Everything a run does goes to a log of events. `CustodyLaw` says which event may
  come next and what captures and ledger are after it; `Keeper` keeps its fields equal to the
  replay of a lawful log, so a file cannot leave the captures without an event that says why.
- **Credentials** (`Credentials`, `CredentialStore`). The serialized publications of the
  credential owner as a step function, and the classes that update store and opener in place.
- **Consent** (`Consent`). Setup, confirm and sync start over the credential, answer and
  unverified files, interleaved between their locked sections and cut off inside them. `Ideal` is
  what each event does on a disk that works.
- **The post-connect burst** (`PostConnect`), **segment names** (`SegmentNaming`, `Names`), **the
  session pattern** (`Glob`) and **frames** (`Frames`). `Prelude` and `Text` hold shared helpers.

Decoding JSON, hashing and the certificate hash are parameters: a `Decoder` gives the frame id of
a line, `digest` the hex digest of bytes, and a pairing's generation is carried as a string.

## What turned out not to hold

The code is modelled as it is. Five promises hold only under a condition, and for each there is
the exact condition, a concrete case in which it fails, or both.

- A file whose recorded offset lies inside a record and that has bytes past the offset gets two
  cuts, and the second pads it with zeros (`Restart.TornOffsetRepairsWholeExactlyWhen`). The
  writer never leaves such an offset (`SegmentLog.FrameKeepsRecord`); `Restart.TornOffsetPadsAFile`
  is one such file.
- Activity that was acknowledged without a line end is cut back to the last line end by recovery
  (`CrashRecovery.ActivityKeptExactlyWhenWholeLines`, `CrashRecovery.UnfinishedLineIsCut`). The
  observer hands over whole lines only, and on such runs nothing is lost
  (`CrashRecovery.WriteCrashRecover`).
- A publication whose write replaces the file but reports a failure, and whose read-back fails
  too, leaves the file different from the live credential with nothing pending
  (`Credentials.StepKeepsAgreementExactlyUnlessLost`, `Credentials.LostWriteParts`).
- A read of an absent answer file that fails for another reason counts as settled, so a pairing
  held after it is later taken for an old one (`Consent.PrivateState.GrandfatherOrSettle` and
  `Consent.PrivateState.Step` say exactly when, `Consent.HeldPairingIsGrandfathered` is such a run).
- A segment length beyond 64 bits of nanoseconds is recorded clamped but named in full
  (`Records.LengthConsistentExactlyWhenItFits`); the interval of the program is far below that.

## Model

| member | source | states |
|---|---|---|
| `Storage.FileStorage.AppendFrame` | native/solstone-tmux/src/storage.rs:406-456 | An append is all or nothing under any fault script: success commits the bytes and the metadata to disk, and only for a file as long as recorded; for a file that is, a recoverable failure leaves both as before, up to an empty new file, and a failed rollback leaves at most the new bytes after what was there, with either metadata; a file of another length gets no bytes, the metadata stays, and the rollback sets the file to the recorded length; an unread metadata file changes nothing; and on a disk that works the append succeeds |
| `Storage.FileStorage.AppendInner` | native/solstone-tmux/src/storage.rs:264-333 | Open, length check, write and the two fsyncs touch only the named file, which keeps what was fsynced and gains at most the new bytes; success leaves exactly old bytes plus new bytes, fsynced and anchored in the directory; a file of another length than recorded is opened and nothing more |
| `Storage.FileStorage.UndoAppend` | native/solstone-tmux/src/storage.rs:412-420 | After a failed append a finished rollback restores the file, an unfinished one keeps the old bytes, and after a length mismatch the file is at most resized to the recorded offset |
| `Storage.FileStorage.RecordAppend` | native/solstone-tmux/src/storage.rs:422-453 | With the bytes durable, either the metadata is too, or both are rolled back, or the segment is poisoned with at most the new bytes after the old and one of the two metadata values |
| `Storage.FileStorage.Rollback` | native/solstone-tmux/src/storage.rs:229-262 | A finished rollback leaves the file at the old offset and fsynced; an unfinished one leaves one of three named states; a file that was never opened needs none |
| `Storage.FileStorage.Handle` | native/solstone-tmux/src/storage.rs:190-227 | A file is opened once; opening creates at most an empty file |
| `Storage.FileStorage.SyncAndClose` | native/solstone-tmux/src/storage.rs:462-478 | Closing fsyncs files without changing their contents and drops every handle even when an fsync fails |
| `Storage.Device.AtomicWrite` | native/solstone-tmux/src/storage.rs:566-698 | An atomic replacement either leaves the old entry, or the new one, possibly not yet safe from a power cut; it can fail before or after the rename |
| `Storage.RollbackKeeps` | native/solstone-tmux/src/storage.rs:229-262 | From any torn state of an append, an interrupted rollback still keeps the old bytes, and a finished one restores the file exactly |
| `Segment.SegmentState.AppendCapture` | native/solstone-tmux/src/segment.rs:132-199 | Success assigns the next id and appends exactly that frame to the session's own file; every other outcome acknowledges nothing, so the same capture gets the same id again; a poisoned or closed segment never touches the disk; only a failed rollback poisons; with no fault coming only an unusable name, a full counter or an unchanged screen keeps a capture from being appended, and the segment stays writable |
| `Segment.SegmentState.AppendActivity` | native/solstone-tmux/src/segment.rs:201-246 | The same for desktop activity, whatever bytes it is; whole lines keep the activity file whole lines |
| `Segment.SegmentState.Finalize` | native/solstone-tmux/src/segment.rs:258-305 | A close that succeeds leaves the finalized directory holding exactly the acknowledged bytes, the zone written and the metadata gone, or nothing at all for an empty segment; a failure at any step loses nothing; a poisoned segment is never finalized; with no fault coming and the name free it succeeds |
| `Segment.SegmentState.RemoveConfirmedEmpty` | native/solstone-tmux/src/segment.rs:307-372 | Removes only a segment with nothing acknowledged, poisoned or not, file by file, and a file that turns out to hold bytes stops the removal; metadata that records anything is answered with NotEmpty and nothing is touched; a closed segment answers as it was closed; with no fault a confirmed empty segment goes |
| `Segment.Create` | native/solstone-tmux/src/segment.rs:71-130 | Metadata before directory before open metadata: wherever creation stops the disk holds the empty log; a segment that was created satisfies the invariant, and without faults and collisions one is created |
| `Segment.SegmentState.constructor` | native/solstone-tmux/src/segment.rs:117-129 | A segment starts with an empty log and all invariants |
| `Segment.Run` | native/solstone-tmux/src/segment.rs:71-372 | For any sequence of appends and closes under any fault script, with the power cut at any disk call, the disk still holds the log made of exactly the appends that were answered with success; with no fault nothing but an unusable name or a full counter refuses an append before the first close |
| `Segment.Perform` | native/solstone-tmux/src/segment.rs:132-305 | One step extends the acknowledged log by exactly what its answer says, by at most one append |
| `Segment.ReplyExtendsReplay` | native/solstone-tmux/src/segment.rs:132-246 | The acknowledged log is the replay of steps and answers, one answer at a time |
| `SegmentLog.FrameKeepsRecord` | native/solstone-tmux/src/segment.rs:155-199 | One more frame keeps the record exact: offsets are file lengths, files parse to their end, names are the derived ones, and the ids of all session files are again 1..n, each once and ascending per file |
| `SegmentLog.ActivityKeepsRecord` | native/solstone-tmux/src/segment.rs:201-246 | Activity of any bytes keeps offsets, names and ids exact |
| `SegmentLog.LinesStay` | native/solstone-tmux/src/segment.rs:201-246 | Appending whole lines keeps the activity file whole lines, and no session file touches it |
| `SegmentLog.SameRecordKeepsRecorded` | native/solstone-tmux/src/segment.rs:440-448 | Lifecycle and length may change without changing what bytes the metadata records |
| `SegmentLog.SessionFileIsItsOwn` | native/solstone-tmux/src/segment.rs:148-154 | A session's file is shared with no other session and never is the activity file |
| `SegmentLog.OffsetsStayBehindFsync` | native/solstone-tmux/src/storage.rs:406-456 | While no rollback has failed, no metadata a power cut can leave claims more of a file than is fsynced |
| `Segment.DurableIsSound` | native/solstone-tmux/src/segment.rs:186-198 | After a durable append the disk holds exactly the longer log whatever a power cut leaves |
| `Segment.RecoverableIsSound` | native/solstone-tmux/src/segment.rs:188-193 | After a recovered append the disk holds exactly the old log |
| `Segment.PoisonedIsSound` | native/solstone-tmux/src/segment.rs:188-193 | After a failed rollback the old log is still safe and only the pending bytes can follow it |
| `Segment.EmptyMeansNoLog` | native/solstone-tmux/src/segment.rs:265-267 | Metadata without frames or activity means that nothing was acknowledged |
| `Records.PartitionAppend` | native/solstone-tmux/src/segment.rs:155-179 | Adding the next id to one file keeps the ids of all files exactly 1..n |
| `Records.LengthConsistentExactlyWhenItFits` | native/solstone-tmux/src/segment.rs:418-452 | The recorded name agrees with the recorded nanoseconds if and only if the bounded length fits 64 bits of nanoseconds |
| `Records.RecordLengthIdempotent` | native/solstone-tmux/src/segment.rs:440-448 | Bounding a bounded length changes nothing, as recovery relies on |
| `Records.FinalizedNameInjective` | native/solstone-tmux/src/segment.rs:450-452 | Different lengths give different finalized names |
| `Jsonl.ParseRecordedPrefix` | native/solstone-tmux/src/recovery.rs:753-773 | The loop computes the declarative parse: complete ascending records from the front, stopping at the first torn, undecodable or non-ascending line, and torn only for a missing line end |
| `Jsonl.ParseAppendFrame` | native/solstone-tmux/src/recovery.rs:753-773 | Appending one record with a later id to whole content extends the parse by exactly that id |
| `Jsonl.ParsedIdsAscend` | native/solstone-tmux/src/recovery.rs:766-768 | The ids of a parse strictly ascend |
| `Jsonl.ParseEndsLine` | native/solstone-tmux/src/recovery.rs:756-759 | A parse always stops just after a line end; a torn one means that the content does not end a line |
| `Jsonl.ParseCut` | native/solstone-tmux/src/recovery.rs:645-655 | Cutting a file at the parsed offset leaves content that parses to its very end with the same ids |
| `Numbering.IsNumbered` | native/solstone-tmux/src/recovery.rs:718-729 | Sorting and comparing with positions accepts exactly the lists of 1..n, each once |
| `Numbering.GatheredDecides` | native/solstone-tmux/src/recovery.rs:718-729 | The concatenated ids are such a list if and only if the files partition 1..n |
| `Validation.ReadSession` | native/solstone-tmux/src/recovery.rs:624-675 | One session's file passes exactly when it is present, long enough, parses to its end unless torn, ends with the recorded id and has nothing but a torn line past its offset; the cuts are the ones the specification orders |
| `Validation.ReadSessions` | native/solstone-tmux/src/recovery.rs:621-675 | The loop over sessions accepts exactly when every session passes, collects the cuts file by file, and gathers all ids |
| `Validation.ReadActivity` | native/solstone-tmux/src/recovery.rs:676-717 | The activity file passes unless it is shorter than recorded; it is cut to the last line end within the recorded bytes |
| `Validation.CheckNames` | native/solstone-tmux/src/recovery.rs:585-619 | Only files the metadata names and activity files are known |
| `Validation.LineEndBefore` | native/solstone-tmux/src/recovery.rs:689-696 | The backward search finds the last line end |
| `Validation.ValidateFiles` | native/solstone-tmux/src/recovery.rs:581-751 | Validation accepts if and only if every file passes and the committed ids of all sessions are exactly 1..n for some n, with the recorded counts equal to n unless something is repaired; it returns exactly the specified cuts and metadata |
| `Recovery.PartitionIsUnique` | native/solstone-tmux/src/recovery.rs:718-729 | Files can be numbered 1..n for one n only |
| `Recovery.SomeNumberIsFree` | native/solstone-tmux/src/recovery.rs:1002-1015 | The search for a free quarantine number ends |
| `Recovery.FailedNamesDiffer` | native/solstone-tmux/src/recovery.rs:1004-1010 | No two quarantine names are the same |
| `RecoveryRun.FirstFreeNumber` | native/solstone-tmux/src/recovery.rs:1002-1015 | The loop finds the first number that neither a quarantined directory nor metadata uses |
| `RecoveryRun.MoveAside` | native/solstone-tmux/src/recovery.rs:991-1037 | Quarantine moves the directory and then the metadata under the first free name; whatever a power cut then keeps of the two renames, the directory is whole under one of its two names and the metadata under one of its own; a failed second rename is undone; success is fsynced |
| `RecoveryRun.ApplyRepairs` | native/solstone-tmux/src/recovery.rs:784-818 | Wherever the repairs stop and whatever a power cut keeps, each file has had a prefix of its own cuts and nothing else has changed; success makes all of them, fsynced |
| `RecoveryRun.RecordAndRename` | native/solstone-tmux/src/recovery.rs:418-428 | A refused rename puts the original metadata back; success leaves the directory under its final name |
| `RecoveryRun.DropMetadata` | native/solstone-tmux/src/recovery.rs:436-451 | After the rename come the zone and the removal of the metadata, in that order |
| `RecoveryRun.FinishSource` | native/solstone-tmux/src/recovery.rs:407-465 | Validation, repair and finalization do what the specification says, and every interruption leaves one of its listed states |
| `RecoveryRun.RecoverMetadata` | native/solstone-tmux/src/recovery.rs:267-333 | Metadata without its directory is dropped only when nothing was recorded or the finalized directory holds exactly what it records |
| `RecoveryRun.RecoverDirectory` | native/solstone-tmux/src/recovery.rs:335-465 | Name collision, empty record and the rest, with every interruption accounted for |
| `RecoveryRun.RecoverEmpty` | native/solstone-tmux/src/recovery.rs:355-405 | A segment that recorded nothing loses its activity bytes and then its empty files, directory and metadata, of which a power cut may keep any, unless other bytes contradict the record |
| `RecoveryRun.RecoverCandidate` | native/solstone-tmux/src/recovery.rs:209-465 | A run without failures does exactly what the specification function says; under any failures and stops, every tree that a power cut may leave of it is a state the specification allows; it reports success only when it did the whole and fsynced it |
| `RecoveryRun.RepairsSoFar` | native/solstone-tmux/src/recovery.rs:784-818 | A prefix of the repair list is a prefix of each file's cuts, and the whole list makes the specified directory |
| `RecoverySafety.RepairsRestore` | native/solstone-tmux/src/recovery.rs:784-818 | While repairs of a writer's directory run, every file is as it was or holds exactly its recorded bytes |
| `RecoverySafety.RepairedIsRestored` | native/solstone-tmux/src/recovery.rs:784-818 | The repaired directory holds exactly the recorded bytes in every recorded file |
| `RecoverySafety.UpdatedIsSameRecord` | native/solstone-tmux/src/recovery.rs:736-740 | Repairing a writer's directory leaves its metadata as it was |
| `RecoverySafety.ValidFilesHold` | native/solstone-tmux/src/recovery.rs:639-641 | Validation passes only when everything the metadata records is there |
| `RecoverySafety.RecoveryIsSafe` | native/solstone-tmux/src/recovery.rs:209-465 | Recovery of an interrupted segment, cut off anywhere, keeps every acknowledged byte in one directory |
| `RecoverySafety.RecoveryLeavesOthers` | native/solstone-tmux/src/recovery.rs:168-207 | Recovery of one candidate leaves every other directory and every other candidate's metadata as they were |
| `RecoverySafety.RecoveryKeepsAllSafe` | native/solstone-tmux/src/recovery.rs:168-207 | Recovery of any candidate keeps the acknowledged bytes of every segment safe |
| `RecoverySafety.RecoverStream` | native/solstone-tmux/src/recovery.rs:168-207 | A startup over all candidates, stopping at the first error, keeps every segment safe in every tree a power cut may leave of it; without failures it does exactly what recovering each candidate once, one after the other, does |
| `RecoverySafety.RecoverRepeatedly` | native/solstone-tmux/src/recovery.rs:47-60 | Any number of startups, each cut off anywhere by a stop or by a power cut that keeps any of the changes not yet fsynced, keep every segment safe |
| `CrashRecovery.CrashIsSafe` | native/solstone-tmux/src/recovery.rs:209-465 | Whatever a power cut leaves of a writer's disk whose activity is whole lines is a state in which everything acknowledged is safe |
| `CrashRecovery.NothingAcknowledgedIsLost` | native/solstone-tmux/src/recovery.rs:209-465 | After a writer of whole activity lines under any faults, a power cut and any number of interrupted recoveries, every acknowledged byte is at the front of its file in some directory |
| `CrashRecovery.WriteCrashRecover` | native/solstone-tmux/src/recovery.rs:209-465 | The same as one run: the writer's script, the steps, the stream directory the power cut leaves and the startups are all arbitrary, and what is acknowledged is read off the answers to the steps |
| `CrashRecovery.ActivityKeptExactlyWhenWholeLines` | native/solstone-tmux/src/recovery.rs:684-717 | Recovery keeps the acknowledged activity if and only if it ends a line |
| `CrashRecovery.UnfinishedLineIsCut` | native/solstone-tmux/src/recovery.rs:684-717 | A record of one acknowledged byte of activity without a line end, of which the repair leaves none |
| `CrashRecovery.WrittenMetadataIsConsistent` | native/solstone-tmux/src/recovery.rs:523-554 | Every metadata file a writer can leave passes the consistency check, given a segment interval of at most 64 bits of nanoseconds |
| `CrashRecovery.FinalizesExactlyWhen` | native/solstone-tmux/src/recovery.rs:335-465 | Recovery finalizes an interrupted segment if and only if it recorded something, the final name is free, everything recorded is present and only known files with one torn line each follow it |
| `CrashRecovery.NothingRecordedIsNotFinalized` | native/solstone-tmux/src/recovery.rs:355-405 | A segment that recorded nothing is removed or put aside, never finalized |
| `Restart.FinalizedHoldsTheRecord` | native/solstone-tmux/src/recovery.rs:407-465 | A finalized directory holds exactly the recorded bytes, which are everything acknowledged and at most the one pending append; the incomplete directory and the metadata are gone and the zone is written |
| `Restart.RestartReachesTheSame` | native/solstone-tmux/src/recovery.rs:267-333 | Cutting repair-and-finalize off after any step and starting again reaches the same stream directory, on any state a writer leaves |
| `Restart.RestartWhileRepairing` | native/solstone-tmux/src/recovery.rs:784-818 | The case of an interruption among the repairs |
| `Restart.RestartAfterRecording` | native/solstone-tmux/src/recovery.rs:418-428 | The case of an interruption between the metadata and the rename |
| `Restart.RestartAfterRename` | native/solstone-tmux/src/recovery.rs:290-327 | The case of an interruption after the rename: the finalized directory is recognised and only the metadata goes |
| `Restart.FinalReadsBack` | native/solstone-tmux/src/recovery.rs:335-338 | The metadata recovery writes is consistent, and bounding its length again changes nothing |
| `Restart.TornOffsetRepairsWholeExactlyWhen` | native/solstone-tmux/src/recovery.rs:645-673 | When the recorded offset lies inside a record, the repaired file is whole if and only if no bytes follow the offset; otherwise the second cut pads the file with zeros |
| `Restart.TornOffsetPadsAFile` | native/solstone-tmux/src/recovery.rs:645-673 | One file on which the repair fails: it ends in a zero byte and does not parse to its end |
| `Names.DeriveComponent` | native/solstone-tmux/src/name.rs:58-114 | The loop computes the specified derivation, errors included |
| `Names.DerivedIsSafe` | native/solstone-tmux/src/name.rs:58-114 | A derived component is not empty, at most 200 bytes, made of safe ASCII, and neither dot name |
| `Names.RawIsRecoverable` | native/solstone-tmux/src/name.rs:99-105 | The raw name can be read back from its component, even after the case was folded |
| `Names.DerivedNamesDoNotAlias` | native/solstone-tmux/src/name.rs:58-114 | Two names never share a component, not even on a case-insensitive file system |
| `Names.FixpointsAreCanonical` | native/solstone-tmux/src/name.rs:80-114 | A name derives to itself if and only if it is canonical, not empty and within the bound |
| `Names.SessionFilesAreDistinct` | native/solstone-tmux/src/name.rs:17-19 | Different sessions write to different files |
| `Glob.MatchesSessionPattern` | native/solstone-tmux/src/tmux.rs:601-618 | The greedy matcher accepts exactly the names the pattern means, for every pattern and name |
| `Glob.PartsMeanThePattern` | native/solstone-tmux/src/tmux.rs:601-618 | Splitting at the stars keeps the meaning of the pattern |
| `Glob.LeftmostSuffices` | native/solstone-tmux/src/tmux.rs:611-616 | Taking the leftmost occurrence of a middle part loses no match |
| `Frames.WriteString` | native/solstone-tmux/src/serialize.rs:267-304 | The formatter's loop writes the specified escape of every character |
| `Frames.StringRoundTrip` | native/solstone-tmux/src/serialize.rs:267-304 | Reading by section 7 of RFC 8259 gives back every string, whatever bytes follow it |
| `Frames.ReadSurrogatePair` | native/solstone-tmux/src/serialize.rs:279-284 | A character above the basic plane is written as two escapes and read back as one character |
| `Frames.SerializedIsPrintable` | native/solstone-tmux/src/serialize.rs:239-304 | Serialized values are printable ASCII only |
| `Frames.FrameIsOneLine` | native/solstone-tmux/src/serialize.rs:225-231 | Every frame holds exactly one line feed, at its end |
| `Frames.FrameIsARecord` | native/solstone-tmux/src/serialize.rs:225-231 | Where a reader gets the id back from the envelope, the frame is one record with that id as recovery parses it |
| `Frames.TornFrameHasNoNewline` | native/solstone-tmux/src/recovery.rs:662-673 | Every strict prefix of a frame passes recovery's test for a torn tail |
| `SegmentNaming.ChooseName` | native/solstone-tmux/src/observer.rs:119-212 | The search ends; it picks the first second from the natural one on whose stem starts no entry, falls back to the natural name when a directory cannot be listed, and fails only when the natural directory is unavailable |
| `SegmentNaming.Tick` | native/solstone-tmux/src/observer.rs:195-211 | The carry over seconds, minutes, hours and days adds exactly one second |
| `SegmentNaming.ScanEntries` | native/solstone-tmux/src/observer.rs:170-185 | The scan reports a taken name or a broken listing, whichever comes first |
| `SegmentNaming.StemsDiffer` | native/solstone-tmux/src/observer.rs:144 | Within a day no two seconds share a stem |
| `SegmentNaming.ClockIsTimeName` | native/solstone-tmux/src/recovery.rs:1051-1062 | Every stem is a time name that reads back as its clock |
| `SegmentNaming.SearchEndsOnce` | native/solstone-tmux/src/observer.rs:142-212 | The outcome of the search is the only one its specification allows |
| `SegmentNaming.FreeNameDoesNotCollide` | native/solstone-tmux/src/segment.rs:86-90 | A chosen name collides with no entry when the segment is created, nor when it is finalized under any length |
| `Receipt.ParseDescriptors` | native/solstone-tmux/src/journal.rs:740-791 | The list of descriptors is accepted exactly when each item is well formed; otherwise the fault is that of the first bad item |
| `Receipt.AssessReceipt` | native/solstone-tmux/src/journal.rs:814-880 | With distinct local names a receipt is valid if and only if the upload was acknowledged and its descriptors are in bijection with the local files by name, size and digest with none received but not written; duplicates and unwritten files get their own faults |
| `Receipt.AgreementIsBijection` | native/solstone-tmux/src/journal.rs:841-878 | The tests of the source imply a one-to-one pairing |
| `Receipt.BijectionIsAgreement` | native/solstone-tmux/src/journal.rs:841-878 | A one-to-one pairing passes every test of the source |
| `Receipt.ReadAck` | native/solstone-tmux/src/sync.rs:1127-1185 | A stored acknowledgement is used exactly when it is for this place and journal, names no file twice and covers all local files; a failing one of this journal is deleted, another journal's is left alone |
| `Receipt.CheckCoverage` | native/solstone-tmux/src/sync.rs:1155-1182 | The lookup table decides exactly whether every local file is covered |
| `Receipt.ConfirmedReadsBack` | native/solstone-tmux/src/sync.rs:1187-1213 | The acknowledgement written from a valid receipt is accepted for the same journal and every subset of the files, so an interrupted deletion resumes |
| `Receipt.AllWrittenReadsBack` | native/solstone-tmux/src/sync.rs:1931-1957 | So is the one written for a segment the journal had removed |
| `Removal.SegmentFolder.UnlinkOne` | native/solstone-tmux/src/sync.rs:3048-3083 | After arbitrary interference a name is unlinked only when it still leads to the same inode and length and the bytes hash to the confirmed digest; the folder is then exactly what the interference made of it less this one name, and the recorded bytes are those that lay there; otherwise it is exactly what the interference made of it |
| `Removal.SegmentFolder.UnlinkAll` | native/solstone-tmux/src/sync.rs:3048-3083 | The files unlinked are the first ones of the list, in order, each with its confirmed bytes, and the folder is exactly the old one after the interference before each file and these unlinks |
| `Removal.SegmentFolder.Delete` | native/solstone-tmux/src/sync.rs:3006-3108 | Removal reports success only after unlinking every expected file with its confirmed bytes from a folder that is then empty; a refusal changes nothing; after a failure the restoration contract holds of the state it stopped in, which is the old folder after the interference before each file visited and the recorded unlinks; without interference and faults it succeeds |
| `Removal.SegmentFolder.RestoreOne` | native/solstone-tmux/src/sync.rs:3118-3172 | One file is put back, or left where it is, or given up, without disturbing the others |
| `Removal.SegmentFolder.Restore` | native/solstone-tmux/src/sync.rs:3110-3174 | When restoration reports success every expected name holds the bytes of its retained inode; in every case every file found in the directory survives under its name or a conflict name and no inode changes |
| `Custody.Keeper.InventoryFor` | native/solstone-tmux/src/sync.rs:2187-2226 | An inventory belongs to the files as they are now, with distinct names, and fresh ones hold the digests of the bytes; a file that cannot be read leaves the segment without one and the cache as it was |
| `Custody.Keeper.DeleteConfirmed` | native/solstone-tmux/src/sync.rs:898-956 | With a stored acknowledgement of the paired journal, removal appends only lawful events, of which the captures stay the replay, and touches no other segment; once the fence is closed nothing is removed; with no interference and no fault the segment goes |
| `Custody.Keeper.FinishCandidate` | native/solstone-tmux/src/sync.rs:1657-1721 | Local finishing of one segment appends only lawful events and touches no other segment; with no fault and no interference, an empty segment goes, and so does one whose stored acknowledgement covers its files as they are |
| `Custody.Keeper.FinishLocally` | native/solstone-tmux/src/sync.rs:1638-1724 | Appends only lawful events; once the fence is closed nothing is removed; with no fault and no interference, every segment whose acknowledgement covers its files is gone afterwards, and acknowledgements of segments that are gone are pruned |
| `Custody.AcceptedCanGo` | native/solstone-tmux/src/sync.rs:1127-1185 | An acknowledgement accepted for a fresh inventory confirms exactly the bytes that removal will hash again |
| `Custody.Keeper.DueForUpload` | native/solstone-tmux/src/sync.rs:1763-1865 | Every segment that resolves is due, unless it has an acknowledgement good for its files, its next attempt lies ahead, or its files could not be read; a due segment resolves, is not delayed, is listed once and with its files as inventoried; without faults all are readable |
| `Custody.Keeper.RemoveEmptySegment` | native/solstone-tmux/src/sync.rs:958-994 | Only directories without entries are removed without an acknowledgement |
| `Custody.Keeper.TakeAnswer` | native/solstone-tmux/src/sync.rs:1886-2152 | An answer is recorded before anything else; only a valid receipt or a segment-removed answer leads to an acknowledgement, any other changes neither ledger nor captures; when the acknowledgement could not be written the captures stay as they are; no other segment is touched; with no fault, a valid answer leaves the acknowledgement stored or the segment gone |
| `Custody.Keeper.SweepOnce` | native/solstone-tmux/src/sync.rs:1726-2180 | A sweep over any answers and any schedule appends only lawful events; with no fault each due segment is asked about, in order, until an answer ends the sweep |
| `Custody.Keeper.Acknowledge` | native/solstone-tmux/src/sync.rs:1944-1998 | An acknowledgement that could not be written removes nothing; one that was is on record before the first unlink |
| `Custody.RemovalIsLawful` | native/solstone-tmux/src/sync.rs:3006-3108 | A removal, whatever became of it, is a list of lawful events: each unlink follows the interference before its file and takes bytes the stored acknowledgement lists, a failed removal restores without losing a file, and only an emptied directory goes |
| `Custody.StepsAreLawful` | native/solstone-tmux/src/sync.rs:3048-3083 | The same for the unlinks alone, which replay to exactly the folder the removal left |
| `CustodyLaw.LedgerIsJustified` | native/solstone-tmux/src/sync.rs:1187-1213 | Every acknowledgement in the ledger of a lawful log was written because of an answer of the journal it names |
| `CustodyLaw.UnlinksAreConfirmed` | native/solstone-tmux/src/sync.rs:3048-3083 | In a lawful log every unlinked file lay under its name with these bytes, the fence was open, and the journal paired at that moment had acknowledged the digest of these bytes for that name |
| `CustodyLaw.NoBytesAreLost` | native/solstone-tmux/src/sync.rs:3006-3174 | Over any lawful log, bytes once held by a segment's directory are still in it, or an event unlinked exactly these bytes, unless an outside program took them |
| `CustodyLaw.OnDiskUntilAcknowledged` | native/solstone-tmux/src/sync.rs:1560-2180 | So captured bytes are on disk until the journal has acknowledged them |
| `CustodyLaw.ReplayStaysSound` | native/solstone-tmux/src/sync.rs:3110-3174 | Every directory of a lawful log stays a map of names to existing inodes |
| `Custody.Run` | native/solstone-tmux/src/sync.rs:1560-2180 | Over any run of sweeps, local finishes, outside changes, re-pairings, stops and restarts, the log is lawful and runs through exactly these operations, captures and ledger are its replay, and each unlinked file's bytes hash to a digest that the journal paired at that moment had acknowledged for that name, by a valid receipt or by reporting the segment removed |
| `Fence.Supervision.Step` | native/solstone-tmux/src/sync.rs:863-889 | Every event of any task happens in place exactly as specified: each enabled one, unlink, lock drop, arrival and cancellation included, and no other |
| `Fence.SomeoneMoves` | native/solstone-tmux/src/sync.rs:884-888 | Closing never deadlocks: until it returns some task can move, and the move brings the return closer |
| `Fence.StepKeepsValid` | native/solstone-tmux/src/sync.rs:863-889 | Every event keeps mutex and permit with exactly the tasks in the phases that hold them, removals one at a time, and nothing after the lock drop |
| `Fence.NothingAfterDrain` | native/solstone-tmux/src/observer.rs:923-938 | Once closing has returned, whatever else is tried, only the lock drop is recorded |
| `Fence.ClosingCanReturn` | native/solstone-tmux/src/sync.rs:884-888 | From every valid state in which closing has begun, a bounded number of steps of the tasks already there lets it return |
| `Fence.AnyInterleaving` | native/solstone-tmux/src/observer.rs:923-938 | For any number of tasks and events, cancellations included, the state is the specified one, at most one removal runs at a time, unlinks happen only within one, and none happens after the instance lock was dropped, which happens only after closing returned |
| `Credentials.StepKeepsConsistent` | native/solstone-tmux/src/sync.rs:302-572 | Pending updates and clears always carry the current generation, and until it is retired the opener's relay and revision equal the store's |
| `Credentials.StepKeepsAgreementExactlyUnlessLost` | native/solstone-tmux/src/sync.rs:397-417 | From agreement, an operation ends in agreement of file and live credential if and only if it does not lose a write: a publication whose write took effect but failed, whose read-back failed, with nothing pending |
| `Credentials.ReachableStates` | native/solstone-tmux/src/sync.rs:169-688 | Every reachable state is consistent; in runs without lost writes, nothing pending means that the file equals the live credential |
| `Credentials.PersistedMeansAgreed` | native/solstone-tmux/src/sync.rs:653-687 | When persisting reports success in such a run, the file equals the live credential |
| `Credentials.LostWriteParts` | native/solstone-tmux/src/sync.rs:485-500 | A concrete lost write after which file and live credential differ with nothing pending |
| `Credentials.DisableResult` | native/solstone-tmux/src/sync.rs:517-572 | An accepted disable empties the relay of store and opener before anything is written, and leaves the clear pending unless it was written |
| `Credentials.DisabledUntilReady` | native/solstone-tmux/src/sync.rs:517-547 | After an accepted disable the live relay, and the opener's until it is retired, stay empty over any run without a Ready captured at or after that generation |
| `Credentials.StaleRefreshChangesNothing` | native/solstone-tmux/src/sync.rs:302-316 | A token refresh leased to an earlier generation changes nothing, however late it arrives |
| `Credentials.StaleAttemptChangesNothing` | native/solstone-tmux/src/sync.rs:247-260 | Nor does a Ready or disable from an attempt captured before the generation moved on |
| `CredentialStore.Store.RefreshToken` | native/solstone-tmux/src/sync.rs:302-339 | The update in place is the specified step |
| `CredentialStore.Store.SubmitReady` | native/solstone-tmux/src/sync.rs:361-451 | The update in place is the specified step; a confirmed publication leaves file and live credential equal, an uncertain one leaves an update pending |
| `CredentialStore.Store.SubmitDialEndpoints` | native/solstone-tmux/src/sync.rs:453-512 | The update in place is the specified step and never changes relay or generation |
| `CredentialStore.Store.SubmitDisable` | native/solstone-tmux/src/sync.rs:517-572 | The update in place is the specified step; success means that the disabled credential is on disk with nothing pending |
| `CredentialStore.Store.PersistWhatIsPending` | native/solstone-tmux/src/sync.rs:653-687 | The update in place is the specified step and never changes the live credential |
| `CredentialStore.Store.CaptureAttempt` | native/solstone-tmux/src/sync.rs:228-245 | A captured attempt is current until something else happens |
| `CredentialStore.PrivateLinkOpener.Install` | native/solstone-tmux/src/private_link.rs:93-121 | A retired opener keeps what it has; any other replacement moves the incarnation on |
| `Consent.PrivateState.GrandfatherOrSettle` | native/solstone-tmux/src/pairing_answer.rs:426-448 | An existing answer file is never touched; success leaves one behind if and only if no read of an absent one was missed, and a read is missed exactly when it fails while the machine runs; the credential is never touched |
| `Consent.PrivateState.RecordConfirmation` | native/solstone-tmux/src/pairing_answer.rs:485-505 | Success means that the pairing now reads as confirmed, provided it has a certificate; an answer is only ever written for a consented generation |
| `Consent.PrivateState.Start` | native/solstone-tmux/src/private_link.rs:457-465 | The first locked section of setup, confirm and sync: an existing answer is never touched, and on a disk that works the answer is settled and the process goes on; a read of an absent answer is missed exactly when the process got the lock and that read failed |
| `Consent.PrivateState.LookAtStored` | native/solstone-tmux/src/private_link.rs:678-725 | Confirm asks about the stored pairing exactly when it is not confirmed already |
| `Consent.PrivateState.DecideSetup` | native/solstone-tmux/src/private_link.rs:482-635 | Only yes records consent; no changes nothing; walking away changes no answer and, on a disk that works, keeps a confirmed pairing; yes then makes the offered pairing read as confirmed |
| `Consent.PrivateState.DecideConfirm` | native/solstone-tmux/src/private_link.rs:727-890 | The answer counts only while the generation that was shown is still stored; then, on a disk that works, no deletes the credential and yes makes it read as confirmed exactly when it has a certificate; walking away changes nothing |
| `Consent.PrivateState.PollStored` | native/solstone-tmux/src/sync.rs:2403-2459 | Sync begins only with a pairing that reads as confirmed, and does begin with one on a disk that works |
| `Consent.PrivateState.Step` | native/solstone-tmux/src/private_link.rs:383-891 | Every step of every process keeps the consent invariant; consent grows exactly by the generation a yes was said to; a read counts as missed exactly when the start of a process misses it; and on a disk that works each event does exactly what the specification says |
| `Consent.Race` | native/solstone-tmux/src/private_link.rs:383-891 | Over every interleaving of setup, confirm and sync with failures, stops and restarts, and unless a read of an absent answer file was missed, a pairing reads as confirmed only if the owner said yes to that generation or it was stored before there was any answer file; no read is missed when calls fail only because the machine stops or when an answer file was there, and without a yes nothing new is consented to |
| `Consent.HeldPairingIsGrandfathered` | native/solstone-tmux/src/pairing_answer.rs:443-446 | A concrete run of four events with such a missed read, after which a held pairing reads as confirmed |
| `PostConnect.Coordinator.Trigger` | native/solstone-tmux/src/post_connect.rs:160-189 | In place, a trigger does what is specified: it starts both lanes of a fresh burst, or asks for follow-ups without raising the burst's potential |
| `PostConnect.Coordinator.RequestFollowUp` | native/solstone-tmux/src/post_connect.rs:221-230 | In place, a running first pass is asked for one follow-up, and an idle lane restarts within its two passes |
| `PostConnect.Coordinator.OnComplete` | native/solstone-tmux/src/post_connect.rs:270-341 | In place, a completion does what is specified and uses up exactly one unit of the burst's potential |
| `PostConnect.Coordinator.Step` | native/solstone-tmux/src/post_connect.rs:123-341 | Every event in any order happens in place exactly as specified and keeps the invariant |
| `PostConnect.Coordinator.Drain` | native/solstone-tmux/src/post_connect.rs:137-155 | Without further triggers the burst is over after at most four completions, one for each pass in flight or still to come |
| `PostConnect.StepKeepsValid` | native/solstone-tmux/src/post_connect.rs:123-341 | Every event keeps: at most two passes a lane, a waiting follow-up only during the first pass, active exactly while some lane is in flight, the jobs running exactly those in flight, and completions plus potential equal to four |
| `PostConnect.TriggerKeepsValid` | native/solstone-tmux/src/post_connect.rs:160-189 | A trigger starts a fresh burst of two jobs, or leaves what the running one may still do as it was |
| `PostConnect.CompletionKeepsValid` | native/solstone-tmux/src/post_connect.rs:270-341 | A completion uses one of the passes in flight or still to come |
| `PostConnect.AnyBurst` | native/solstone-tmux/src/post_connect.rs:160-341 | After any sequence of events the state is the specified one, each lane has run at most two passes, the burst is active exactly while a lane is in flight, and some completions, as many as the two lanes still allow and at most four, end it |

## Left out

- Sockets, TLS, the relay transport and the HTTP client: creating a transport succeeds or fails, and the journal answers anything.
- tmux and service subprocesses, terminal prompts, command-line text and mark words: an owner's reaction is yes, no or walking away.
- JSON decoding of metadata, acknowledgements and answers, SHA-256 and UTF-8 decoding: parameters or decoded values; a torn metadata file is one that does not decode.
- Permissions, symbolic links, special files and canonical paths: files and directories are plain.
- Power cuts during a removal by sync: one can bring an unlinked name back, and takes no other.
- Changes of an earlier startup that were never fsynced: a power cut keeps or loses only the changes of the startup it ends.
- Renewals of the credential by a running sync inside a locked section of confirm: the store's writes take no answer lock, and here they fall between sections.
- Failing reads and directory scans during recovery: they end the run before its next change, which the interrupted states cover.
- Reordering inside one file: a power cut leaves a prefix of something written, never later bytes without earlier ones.
- `RecoveryOptions`, `FaultPlan` and the atomic-write fault hooks: the outcome scripts allow more than they do.
- `remove_validated_empty_files`: the second look at inode and length before empty files go, which guards against writers that hold no lock.
- Wall-clock and zone representability in the metadata check: the model keeps the zone and drops the start time.
- How the retry schedule is computed and stored, backoff, health facts and the activity indicator: each sweep is given any set of delayed segments.
- Replacing the segment directory itself during removal, and changes between hashing a file and unlinking it: interference happens at the hook.
- Order of candidates, sessions and directory entries: the model takes any order where the source sorts.
- The journal name and about publications of the credential owner, its persistence diagnostics and pending ids: they never touch the credential.
- Other writers of the credential file while a store runs, and wrap-around of 64-bit counters: generations and ids are mathematical integers.
- A dial that finishes under an outdated incarnation: only the incarnation itself is modelled.
- Lock timeouts as durations: a lock is taken or not.
- Calendar dates: days are numbered, and the next day always exists.
- Configuration, pairing links, endpoint merging and the other parsers: small functions without state.
- Segment rotation, activity linger and the supervision of tasks in `observer.rs`: only naming and the shutdown order are modelled.
- Restart.RestartReachesTheSame: covers the repair-and-finalize path; an interrupted quarantine or removal is finished differently by the next run, and keeps every byte by RecoverySafety.RecoveryIsSafe.
- Custody.Keeper.SweepOnce: does not state that every segment is eventually sent; only names that derivation leaves unchanged are ever resolved, and how long a segment stays delayed is left out.
- CrashRecovery.NothingAcknowledgedIsLost: assumes whole activity lines, the exact condition being in CrashRecovery.ActivityKeptExactlyWhenWholeLines.
- CustodyLaw.NoBytesAreLost: assumes that outside programs leave these bytes in the directory; what they take is not the program's doing.
- Consent.Race: assumes that no read of an absent answer file is missed, the exact condition being in Consent.PrivateState.Step.
