/**
 * Upload, acknowledgement and local removal, over any run of sweeps, restarts and re-pairings.
 *
 * The journal answers anything. Outside programs change captures between operations and at the
 * hook before each unlink. Every disk call takes its outcome from a script; a stop ends the
 * process, and a restart begins the next one. Everything that happens goes to a log of events,
 * which always obeys the custody law and of which captures and ledger are the replay.
 */
module Custody {
  import opened Prelude
  import opened Receipt
  import opened Removal
  import opened CustodyLaw
  import Names
  import Recovery
  import Text

  datatype Inventory = Inventory(identities: seq<FileIdentity>, files: seq<LocalFile>)

  // ---------- Names and digests ----------

  predicate ExactComponent(v: string) { Names.Derive(v) == Ok(v) }

  predicate CaptureFile(name: string) {
    && |name| >= 18 && "tmux_" <= name && name[|name| - 13..] == "_screen.jsonl"
    && ExactComponent(name) && ExactComponent(name[5..|name| - 13])
  }

  /** Only names that derivation leaves unchanged are resolved for upload. */
  predicate MemberFile(c: Candidate, name: string) {
    CaptureFile(name) || ('_' in c.segment && Recovery.ActivityFile(name, Text.Split(c.segment, '_')[0]))
  }

  lemma MembersAreVisible(c: Candidate, name: string)
    requires MemberFile(c, name)
    ensures name != "" && name[0] != '.'
  {
    Names.FixpointsAreCanonical(name);
  }

  /** The digests by name; of two entries for one name, a hash map keeps the last. */
  function DigestsOf(files: seq<Descriptor>): map<string, string> {
    if files == [] then map[]
    else
      var last := files[|files| - 1];
      DigestsOf(files[..|files| - 1])[last.submitted := last.sha256]
  }

  lemma {:induction false} DigestsComeFromFiles(files: seq<Descriptor>, name: string)
    requires name in DigestsOf(files)
    ensures HasDigest(files, name, DigestsOf(files)[name])
  {
    var init, last := files[..|files| - 1], files[|files| - 1];
    if name == last.submitted {
      assert files[|files| - 1].submitted == name;
    } else {
      DigestsComeFromFiles(init, name);
      var i :| 0 <= i < |init| && init[i].submitted == name && init[i].sha256 == DigestsOf(init)[name];
      assert files[i] == init[i];
    }
  }

  // ---------- Inventory ----------

  datatype Resolved = Found(names: set<string>) | Empty | Missing | Unusable

  predicate FolderSound(captures: map<Candidate, Folder>) {
    forall c :: c in captures ==> Sound(captures[c])
  }

  predicate InventoryGood(c: Candidate, inventory: Inventory) {
    && MemberNames(inventory.identities) && |inventory.files| == |inventory.identities|
    && forall i :: 0 <= i < |inventory.files| ==> inventory.files[i].name == inventory.identities[i].name
  }

  predicate InventoriesGood(inventories: map<Candidate, Inventory>) {
    forall c :: c in inventories ==> InventoryGood(c, inventories[c])
  }

  lemma InventoryNamesAreDistinct(c: Candidate, inventory: Inventory)
    requires InventoryGood(c, inventory)
    ensures Distinct(NamesOf(inventory.files))
  {
  }

  /** The digest of the file as it lies in the folder. */
  predicate Hashed(digest: Bytes -> string, f: Folder, file: LocalFile)
    requires Removal.Sound(f)
  {
    && file.name in f.entries
    && var bytes := f.inodes[f.entries[file.name]].bytes;
       file.size == |bytes| && file.sha256 == digest(bytes)
  }

  predicate HashedAll(digest: Bytes -> string, f: Folder, files: seq<LocalFile>)
    requires Removal.Sound(f)
  {
    forall i :: 0 <= i < |files| ==> Hashed(digest, f, files[i])
  }

  /** A file as an inventory taken now would list it. */
  function FileNow(digest: Bytes -> string, f: Folder, name: string): LocalFile
    requires Removal.Sound(f) && name in f.entries
  {
    var bytes := f.inodes[f.entries[name]].bytes;
    LocalFile(name, |bytes|, digest(bytes))
  }

  /** The stored acknowledgement is this journal's, and covers every file of the segment as it is now. */
  predicate Acked(digest: Bytes -> string, identity: Identity, captures: map<Candidate, Folder>, ledger: map<Candidate, Ack>,
                  c: Candidate)
    requires FolderSound(captures)
  {
    && c in captures && captures[c].entries != map[] && Members(c, captures[c].entries.Keys)
    && c in ledger && Accepts(ledger[c], Location(c), identity, [])
    && forall n :: n in captures[c].entries ==> Covers(ledger[c].files, FileNow(digest, captures[c], n))
  }

  lemma {:induction false} DistinctDigests(files: seq<Descriptor>, i: nat)
    requires Distinct(Submitted(files)) && i < |files|
    ensures files[i].submitted in DigestsOf(files) && DigestsOf(files)[files[i].submitted] == files[i].sha256
  {
    var init := files[..|files| - 1];
    assert forall j :: 0 <= j < |init| ==> Submitted(init)[j] == Submitted(files)[j];
    assert Submitted(files)[|files| - 1] == files[|files| - 1].submitted && Submitted(files)[i] == files[i].submitted;
    if i < |files| - 1 {
      DistinctDigests(init, i);
    }
  }

  /** An acknowledgement that covers the files as they are confirms every byte that removal will look at. */
  lemma AcceptedCanGo(digest: Bytes -> string, f: Folder, c: Candidate, inventory: Inventory, ack: Ack, identity: Identity)
    requires Removal.Sound(f) && InventoryGood(c, inventory) && Unchanged(f, inventory.identities)
    requires HashedAll(digest, f, inventory.files) && Accepts(ack, Location(c), identity, inventory.files)
    ensures AllConfirmed(f, inventory.identities, DigestsOf(ack.files), digest)
  {
    hide DigestsOf, Distinct, MemberNames;
    forall i | 0 <= i < |inventory.identities|
      ensures Removal.Confirmed(f, inventory.identities[i], DigestsOf(ack.files), digest)
    {
      assert Hashed(digest, f, inventory.files[i]) && Covers(ack.files, inventory.files[i]);
      var j: nat :| j < |ack.files| && Describes(ack.files[j], inventory.files[i]);
      DistinctDigests(ack.files, j);
    }
  }

  lemma AckedIsAccepted(digest: Bytes -> string, identity: Identity, captures: map<Candidate, Folder>,
                        ledger: map<Candidate, Ack>, c: Candidate, files: seq<LocalFile>)
    requires FolderSound(captures) && Acked(digest, identity, captures, ledger, c) && HashedAll(digest, captures[c], files)
    ensures Accepts(ledger[c], Location(c), identity, files)
  {
    hide Distinct;
    forall i | 0 <= i < |files|
      ensures Covers(ledger[c].files, files[i])
    {
      assert Hashed(digest, captures[c], files[i]);
      assert files[i] == FileNow(digest, captures[c], files[i].name);
    }
  }

  predicate Members(c: Candidate, names: set<string>) {
    forall n :: n in names ==> MemberFile(c, n)
  }

  // ---------- One removal as events ----------

  /** The hook and the unlink of each of the first `k` files. */
  function Steps(c: Candidate, number: nat, unlinks: seq<Unlink>, k: nat): History
    requires k <= |unlinks|
  {
    if k == 0 then []
    else
      var gone := unlinks[k - 1];
      Steps(c, number, unlinks, k - 1) + [Interfered(c, number, k - 1), Unlinked(c, gone.name, gone.bytes)]
  }

  /** The files are put back; the hook before the file that stayed ran before that. */
  function Restoring(c: Candidate, number: nat, k: nat, files: nat, folder: Folder): History {
    (if k < files then [Interfered(c, number, k)] else []) + [Restored(c, folder)]
  }

  /** What a removal did, whatever became of it. */
  function RemovalEvents(c: Candidate, number: nat, unlinks: seq<Unlink>, files: nat, r: RemovalResult, folder: Folder): History {
    var steps := Steps(c, number, unlinks, |unlinks|);
    match r
    case Removed => steps + [DirectoryRemoved(c)]
    case Failed => steps + Restoring(c, number, |unlinks|, files, folder)
    case _ => []
  }

  /** The removal is of this segment as it lies now, for the digests of its acknowledgement, and the fence is open. */
  ghost predicate ForSegment(scene: Scene, w: World, c: Candidate, number: nat, job: Job) {
    && w.accepting && c in w.captures && job.start == w.captures[c] && Removal.Sound(job.start)
    && w.turn.removal < number && job.digest == scene.digest
    && c in w.ledger && w.ledger[c].identity == w.identity && job.digests == DigestsOf(w.ledger[c].files)
    && forall i: nat, f: Folder :: job.hook(i, f) == scene.hook(number, i, f)
  }

  /** Only this directory and the turn are different. */
  function Within(w: World, c: Candidate, f: Folder, turn: Turn): World {
    w.(captures := w.captures[c := f], turn := turn)
  }

  function TurnAfter(w: World, number: nat, k: nat): Turn {
    if k == 0 then w.turn else Turn(number, k, false)
  }

  lemma LookIsLawful(scene: Scene, w: World, h: History, c: Candidate, number: nat, job: Job, k: nat)
    requires ForSegment(scene, w, c, number, job) && Lawful(scene, h) && k <= |job.expected|
    requires Replay(scene, h) == Within(w, c, AfterUnlinks(job, k), TurnAfter(w, number, k))
    ensures Lawful(scene, h + [Interfered(c, number, k)])
    ensures Replay(scene, h + [Interfered(c, number, k)]) == Within(w, c, Seen(job, k), Turn(number, k + 1, true))
  {
    hide Lawful, Replay, AfterUnlinks;
    Extend(scene, h, Interfered(c, number, k));
    var f := AfterUnlinks(job, k);
    assert job.hook(k, f) == scene.hook(number, k, f);
  }

  lemma UnlinkIsLawful(scene: Scene, w: World, h: History, c: Candidate, number: nat, job: Job, k: nat, gone: Unlink)
    requires ForSegment(scene, w, c, number, job) && Lawful(scene, h) && k < |job.expected|
    requires Replay(scene, h) == Within(w, c, Seen(job, k), Turn(number, k + 1, true)) && Taken(job, k, gone)
    ensures Lawful(scene, h + [Unlinked(c, gone.name, gone.bytes)])
    ensures Replay(scene, h + [Unlinked(c, gone.name, gone.bytes)])
         == Within(w, c, AfterUnlinks(job, k + 1), TurnAfter(w, number, k + 1))
  {
    hide Lawful, Replay, Seen, HasDigest, DigestsOf;
    DigestsComeFromFiles(w.ledger[c].files, gone.name);
    Extend(scene, h, Unlinked(c, gone.name, gone.bytes));
  }

  lemma {:induction false} StepsAreLawful(scene: Scene, h: History, c: Candidate, number: nat, job: Job,
                                          unlinks: seq<Unlink>, k: nat)
    requires Lawful(scene, h) && ForSegment(scene, Replay(scene, h), c, number, job)
    requires k <= |unlinks| && Removal.Sound(job.start) && TakenFirst(job, [], unlinks, |unlinks|)
    ensures Lawful(scene, h + Steps(c, number, unlinks, k))
    ensures Replay(scene, h + Steps(c, number, unlinks, k))
         == Within(Replay(scene, h), c, AfterUnlinks(job, k), TurnAfter(Replay(scene, h), number, k))
    decreases k
  {
    hide Lawful, Replay, ForSegment, Taken, Seen, AfterUnlinks;
    var w := Replay(scene, h);
    if k == 0 {
      assert h + [] == h;
      StartsAt(scene, w, c, number, job);
    } else {
      StepsAreLawful(scene, h, c, number, job, unlinks, k - 1);
      var before, gone := h + Steps(c, number, unlinks, k - 1), unlinks[k - 1];
      LookIsLawful(scene, w, before, c, number, job, k - 1);
      assert Taken(job, k - 1, gone);
      UnlinkIsLawful(scene, w, before + [Interfered(c, number, k - 1)], c, number, job, k - 1, gone);
      assert h + Steps(c, number, unlinks, k)
          == before + [Interfered(c, number, k - 1)] + [Unlinked(c, gone.name, gone.bytes)];
    }
  }

  lemma StartsAt(scene: Scene, w: World, c: Candidate, number: nat, job: Job)
    requires ForSegment(scene, w, c, number, job)
    ensures Removal.Sound(job.start) && Within(w, c, AfterUnlinks(job, 0), w.turn) == w
  {
    assert w.captures[c := w.captures[c]] == w.captures;
  }

  /** The result of a removal, as the removal itself promises it. */
  ghost predicate Outcomes(job: Job, unlinks: seq<Unlink>, r: RemovalResult, folder: Folder) {
    && Removal.Sound(job.start) && TakenFirst(job, [], unlinks, |unlinks|) && r != RemovalResult.Absent
    && (r == Refused ==> folder == job.start)
    && (r == Removed ==> |unlinks| == |job.expected| && AfterUnlinks(job, |unlinks|).entries == map[])
    && (r == Failed ==> KeepsFiles(StoppedAt(job, |unlinks|), folder))
  }

  /** Where a removal left the captures. */
  function CapturesLeft(captures: map<Candidate, Folder>, c: Candidate, r: RemovalResult, folder: Folder): map<Candidate, Folder> {
    match r
    case Removed => captures - {c}
    case Failed => captures[c := folder]
    case _ => captures
  }

  lemma RemovalIsLawful(scene: Scene, h: History, c: Candidate, number: nat, job: Job, unlinks: seq<Unlink>,
                        r: RemovalResult, folder: Folder)
    requires Lawful(scene, h) && ForSegment(scene, Replay(scene, h), c, number, job) && Outcomes(job, unlinks, r, folder)
    ensures var events := RemovalEvents(c, number, unlinks, |job.expected|, r, folder);
      && Lawful(scene, h + events)
      && var w, now := Replay(scene, h), Replay(scene, h + events);
         now == w.(captures := CapturesLeft(w.captures, c, r, folder), turn := now.turn) && now.turn.removal <= number
  {
    hide Lawful, Replay, Taken, Seen, AfterUnlinks, KeepsFiles;
    var steps := Steps(c, number, unlinks, |unlinks|);
    assert h + [] == h;
    match r {
      case Removed =>
        StepsAreLawful(scene, h, c, number, job, unlinks, |unlinks|);
        RemovedIsLawful(scene, Replay(scene, h), h + steps, c, number, job);
        assert h + steps + [DirectoryRemoved(c)] == h + (steps + [DirectoryRemoved(c)]);
      case Failed =>
        StepsAreLawful(scene, h, c, number, job, unlinks, |unlinks|);
        RestoringIsLawful(scene, Replay(scene, h), h + steps, c, number, job, |unlinks|, folder);
        var restoring := Restoring(c, number, |unlinks|, |job.expected|, folder);
        assert h + steps + restoring == h + (steps + restoring);
      case _ =>
    }
  }

  lemma RemovedIsLawful(scene: Scene, w: World, h: History, c: Candidate, number: nat, job: Job)
    requires Lawful(scene, h) && ForSegment(scene, w, c, number, job)
    requires Replay(scene, h) == Within(w, c, AfterUnlinks(job, |job.expected|), TurnAfter(w, number, |job.expected|))
    requires AfterUnlinks(job, |job.expected|).entries == map[]
    ensures Lawful(scene, h + [DirectoryRemoved(c)])
    ensures var now := Replay(scene, h + [DirectoryRemoved(c)]);
      now == w.(captures := w.captures - {c}, turn := now.turn) && now.turn.removal <= number
  {
    hide Lawful, Replay, AfterUnlinks;
    Extend(scene, h, DirectoryRemoved(c));
    assert w.captures[c := AfterUnlinks(job, |job.expected|)] - {c} == w.captures - {c};
  }

  lemma RestoringIsLawful(scene: Scene, w: World, h: History, c: Candidate, number: nat, job: Job, k: nat, folder: Folder)
    requires Lawful(scene, h) && ForSegment(scene, w, c, number, job) && k <= |job.expected|
    requires Replay(scene, h) == Within(w, c, AfterUnlinks(job, k), TurnAfter(w, number, k))
    requires KeepsFiles(StoppedAt(job, k), folder)
    ensures var events := Restoring(c, number, k, |job.expected|, folder);
      && Lawful(scene, h + events)
      && var now := Replay(scene, h + events);
         now == w.(captures := w.captures[c := folder], turn := now.turn) && now.turn.removal <= number
  {
    hide Lawful, Replay, AfterUnlinks, Seen, KeepsFiles;
    if k < |job.expected| {
      LookIsLawful(scene, w, h, c, number, job, k);
      Extend(scene, h + [Interfered(c, number, k)], Restored(c, folder));
      assert h + [Interfered(c, number, k)] + [Restored(c, folder)]
          == h + ([Interfered(c, number, k)] + [Restored(c, folder)]);
    } else {
      Extend(scene, h, Restored(c, folder));
      assert [] + [Restored(c, folder)] == [Restored(c, folder)];
    }
  }

  /** What restoring promises is what the law asks. */
  lemma RestoredKeepsFiles(before: Folder, now: Folder, expected: seq<FileIdentity>, restored: bool)
    requires Retained(before, expected) && RestoredTo(before, now, expected, |expected|, |expected|, restored)
    ensures KeepsFiles(before, now)
  {
    hide ConflictName;
    forall n | n in before.entries
      ensures StillThere(now, n, before.entries[n])
    {
      assert Survives(before, now, expected, n);
    }
  }

  // ---------- The process ----------

  class Keeper {
    const scene: Scene
    var captures: map<Candidate, Folder>
    var ledger: map<Candidate, Ack>
    var inventories: map<Candidate, Inventory>
    var identity: Identity
    var accepting: bool
    var deletions: nat
    var script: seq<Outcome>
    var power: bool
    /** The event log, in the order things happened. */
    var history: History
    /** The operations so far, and the answers of this sweep still to come. */
    ghost var ops: seq<Op>
    ghost var pending: seq<Answer>

    constructor (scene: Scene, script: seq<Outcome>)
      ensures this.scene == scene && Valid() && ops == []
    {
      this.scene := scene;
      this.identity := scene.first;
      this.script := script;
      captures, ledger, inventories := map[], map[], map[];
      accepting, power, deletions := true, true, 0;
      history, ops, pending := [], [], [];
    }

    /** Captures, ledger and pairing are what the log makes of them, and the log is lawful. */
    ghost predicate Agrees()
      reads this`captures, this`ledger, this`identity, this`accepting, this`pending, this`ops, this`deletions, this`history
    {
      && Lawful(scene, history)
      && var w := Replay(scene, history);
         && captures == w.captures && ledger == w.ledger && identity == w.identity && accepting == w.accepting
         && pending == w.pending && ops == w.ops && w.turn.removal <= deletions
    }

    ghost predicate Valid()
      reads this`captures, this`ledger, this`identity, this`accepting, this`pending, this`ops, this`deletions, this`history
      reads this`inventories
    {
      Agrees() && FolderSound(captures) && InventoriesGood(inventories)
    }

    /** No fault is coming and no outside program interferes. */
    ghost predicate Calm()
      reads this`script, this`power
    {
      power && script == [] && forall d: nat, i: nat, f: Folder :: scene.hook(d, i, f) == f
    }

    /** The directory holds members only, exactly as inventoried, and its bytes hash to what was acknowledged. */
    predicate CanGo(c: Candidate, acknowledged: seq<Descriptor>)
      reads this
      requires FolderSound(captures) && c in inventories
    {
      && c in captures && captures[c].entries != map[] && Members(c, captures[c].entries.Keys)
      && AllRemovable(captures[c], inventories[c].identities, DigestsOf(acknowledged), scene.digest)
    }

    method Next() returns (outcome: Outcome)
      modifies this`script, this`power
      ensures old(Calm()) ==> outcome == Works && Calm()
    {
      if !power {
        return Refuses;
      }
      if script == [] {
        return Works;
      }
      outcome := script[0];
      script := script[1..];
      if outcome == Stops {
        power := false;
      }
    }

    method Resolve(c: Candidate) returns (r: Resolved)
      ensures r.Found? ==> c in captures && r.names == captures[c].entries.Keys && r.names != {} && Members(c, r.names)
      ensures r.Empty? <==> c in captures && captures[c].entries == map[]
      ensures c in captures && captures[c].entries != map[] && Members(c, captures[c].entries.Keys) ==> r.Found?
    {
      if c !in captures {
        return Missing;
      }
      var names := captures[c].entries.Keys;
      if exists n :: n in names && !MemberFile(c, n) {
        return Unusable;
      }
      return if names == {} then Empty else Found(names);
    }

    /**
     * Reads the identities, and hashes the files unless these very identities were hashed before.
     * When a file cannot be read, the segment has no inventory this time.
     */
    method InventoryFor(c: Candidate, names: set<string>) returns (files: Option<seq<LocalFile>>)
      requires Valid() && c in captures && names == captures[c].entries.Keys
      requires Members(c, names)
      modifies this`inventories, this`script, this`power
      ensures Valid() && (old(Calm()) ==> files.Some? && Calm())
      ensures forall d :: d != c ==> Lookup(inventories, d) == Lookup(old(inventories), d)
      ensures files.None? ==> inventories == old(inventories)
      ensures files.Some? ==> c in inventories && inventories[c].files == files.value
      ensures files.Some? ==> Unchanged(captures[c], inventories[c].identities)
      ensures files.Some? && c !in old(inventories) ==> HashedAll(scene.digest, captures[c], files.value)
    {
      hide Agrees, ExactComponent;
      var identified := Next();
      if identified != Works {
        return None;
      }
      if c in inventories && Unchanged(captures[c], inventories[c].identities) {
        return Some(inventories[c].files);
      }
      var ok, identities, hashed := HashFiles(c, names);
      if !ok {
        return None;
      }
      inventories := inventories[c := Inventory(identities, hashed)];
      return Some(hashed);
    }

    method HashFiles(c: Candidate, names: set<string>) returns (ok: bool, identities: seq<FileIdentity>, files: seq<LocalFile>)
      requires FolderSound(captures) && c in captures && names == captures[c].entries.Keys
      requires Members(c, names)
      modifies this`script, this`power
      ensures ok ==> InventoryGood(c, Inventory(identities, files)) && Unchanged(captures[c], identities)
      ensures ok ==> HashedAll(scene.digest, captures[c], files)
      ensures old(Calm()) ==> ok && Calm()
    {
      hide MemberFile;
      var folder, left := captures[c], names;
      ok, identities, files := true, [], [];
      while left != {}
        invariant left <= names && |identities| == |files| && |left| + |files| == |names|
        invariant HashedAll(scene.digest, folder, files)
        invariant forall i :: 0 <= i < |files| ==> files[i].name in names && files[i].name !in left
        invariant forall i :: 0 <= i < |files| ==> identities[i] == IdentityOf(folder, files[i].name)
        invariant forall i :: 0 <= i < |files| ==> files[i].name != "" && files[i].name[0] != '.'
        invariant forall i, j :: 0 <= i < j < |files| ==> files[i].name != files[j].name
        invariant old(Calm()) ==> Calm()
        decreases left
      {
        var name :| name in left;
        var read := Next();
        if read != Works {
          return false, identities, files;
        }
        MembersAreVisible(c, name);
        var bytes := folder.inodes[folder.entries[name]].bytes;
        identities := identities + [IdentityOf(folder, name)];
        files := files + [LocalFile(name, |bytes|, scene.digest(bytes))];
        left := left - {name};
      }
      assert |folder.entries| == |folder.entries.Keys|;
    }

    // ---------- Removal ----------

    /** The stored acknowledgement is the paired journal's and holds these files. */
    predicate AckHeld(c: Candidate, acknowledged: seq<Descriptor>)
      reads this`ledger, this`identity
    {
      c in ledger && ledger[c].identity == identity && ledger[c].files == acknowledged
    }

    /** Removes the files of an acknowledged segment; the fence must still be open. */
    method DeleteConfirmed(c: Candidate, acknowledged: seq<Descriptor>) returns (removed: bool)
      requires Valid() && AckHeld(c, acknowledged)
      modifies this`captures, this`deletions, this`script, this`power, this`history, this`ledger
      ensures Valid() && Grown(old(history), history)
      ensures !accepting ==> captures == old(captures)
      ensures OnlyCandidate(old(captures), captures, c) && (removed ==> c !in captures)
      ensures old(Calm() && accepting && c in inventories && CanGo(c, acknowledged)) ==> removed
      ensures old(Calm()) ==> Calm()
      ensures if removed then ledger == old(ledger) || ledger == old(ledger) - {c} else ledger == old(ledger)
      ensures captures.Keys <= old(captures).Keys
    {
      hide Agrees, MemberFile, FolderSound, InventoriesGood, AllRemovable, DigestsOf, Members;
      var resolved := Resolve(c);
      if !resolved.Found? || !accepting || !power || c !in inventories {
        return false;
      }
      var r := RemoveFiles(c, acknowledged);
      removed := r == Removed || r == RemovalResult.Absent;
      if removed {
        DropAck(c);
      }
    }

    /** Hands the segment's directory to the removal, with the inventoried identities and the confirmed digests. */
    method RemoveFiles(c: Candidate, acknowledged: seq<Descriptor>) returns (r: RemovalResult)
      requires Valid() && AckHeld(c, acknowledged) && accepting && c in captures && c in inventories
      modifies this`captures, this`deletions, this`script, this`power, this`history
      ensures Valid() && Grown(old(history), history)
      ensures OnlyCandidate(old(captures), captures, c) && (r == Removed ==> c !in captures) && r != RemovalResult.Absent
      ensures old(Calm() && CanGo(c, acknowledged)) ==> r == Removed
      ensures old(Calm()) ==> Calm()
      ensures captures.Keys <= old(captures).Keys
    {
      hide Lawful, Replay, MemberFile, DigestsOf, CanGo, Calm, ForSegment, Outcomes;
      ghost var job := JobFor(c, acknowledged);
      ReadyForSegment(c, acknowledged);
      var segment;
      r, segment := RunRemoval(c, acknowledged);
      RemovalIsLawful(scene, history, c, deletions, job, segment.unlinked, r, segment.folder);
      history := history + RemovalEvents(c, deletions, segment.unlinked, |inventories[c].identities|, r, segment.folder);
      captures := CapturesLeft(captures, c, r, segment.folder);
      ReplayStaysSound(scene, history);
    }

    ghost function JobFor(c: Candidate, acknowledged: seq<Descriptor>): Job
      reads this
      requires c in captures && c in inventories
    {
      var d := deletions + 1;
      Job(captures[c], (i: nat, f: Folder) => scene.hook(d, i, f), scene.digest, inventories[c].identities, DigestsOf(acknowledged))
    }

    lemma ReadyForSegment(c: Candidate, acknowledged: seq<Descriptor>)
      requires Valid() && AckHeld(c, acknowledged) && accepting && c in captures && c in inventories
      ensures ForSegment(scene, Replay(scene, history), c, deletions + 1, JobFor(c, acknowledged))
    {
      hide Lawful, Replay;
    }

    /** Removals are numbered in the order they start. */
    method CountRemoval()
      requires Valid()
      modifies this`deletions
      ensures Valid() && deletions == old(deletions) + 1
    {
      hide Lawful, Replay;
      deletions := deletions + 1;
    }

    /** The removal itself, on the directory of this segment alone. */
    method RunRemoval(c: Candidate, acknowledged: seq<Descriptor>) returns (r: RemovalResult, segment: SegmentFolder)
      requires Valid() && c in captures && c in inventories
      modifies this`deletions, this`script, this`power
      ensures Valid() && fresh(segment) && deletions == old(deletions) + 1 && r != RemovalResult.Absent
      ensures Outcomes(old(JobFor(c, acknowledged)), segment.unlinked, r, segment.folder)
      ensures old(Calm() && CanGo(c, acknowledged)) ==> r == Removed
      ensures old(Calm()) ==> Calm()
    {
      hide Agrees, MemberFile, DigestsOf, MemberNames, AllRemovable, Outcomes, Members;
      CountRemoval();
      var d: nat := deletions;
      segment := new SegmentFolder(captures[c], (i: nat, f: Folder) => scene.hook(d, i, f), scene.digest, script);
      segment.power := power;
      assert old(Calm()) ==> segment.Calm();
      assert segment.JobFrom(segment.folder, inventories[c].identities, DigestsOf(acknowledged)) == old(JobFor(c, acknowledged));
      r := DeleteIn(segment, inventories[c].identities, DigestsOf(acknowledged));
      script, power := segment.script, segment.power;
    }

    /** Everything a removal promises, in one clause. */
    method DeleteIn(segment: SegmentFolder, expected: seq<FileIdentity>, digests: map<string, string>) returns (r: RemovalResult)
      requires Removal.Sound(segment.folder) && MemberNames(expected) && segment.unlinked == [] && segment.present
      modifies segment
      ensures r != RemovalResult.Absent
      ensures Outcomes(old(segment.JobFrom(segment.folder, expected, digests)), segment.unlinked, r, segment.folder)
      ensures old(segment.Calm()) && AllRemovable(old(segment.folder), expected, digests, segment.digest) ==> r == Removed
      ensures old(segment.Calm()) ==> segment.Calm()
    {
      hide MemberNames, RestoredTo, Retained, Taken, KeepsFiles, Seen, AfterUnlinks;
      var restored;
      ghost var stopped, count;
      r, restored, stopped, count := segment.Delete(expected, digests);
      if r == Failed {
        RestoredKeepsFiles(stopped, segment.folder, expected, restored);
      }
    }

    /** Deletes the ledger entry, if the file system lets it. */
    method DropAck(c: Candidate)
      requires Valid()
      modifies this`ledger, this`script, this`power, this`history
      ensures Valid() && Grown(old(history), history) && (ledger == old(ledger) || ledger == old(ledger) - {c})
      ensures old(Calm()) ==> Calm() && ledger == old(ledger) - {c}
    {
      hide Lawful, Replay;
      var outcome := Next();
      if outcome == Works {
        Extend(scene, history, AckDropped(c));
        ledger, history := ledger - {c}, history + [AckDropped(c)];
      }
    }

    /** Reads the acknowledgement for these files; one that fails for this journal is deleted. */
    method AckFor(c: Candidate, files: seq<LocalFile>) returns (ack: Option<Ack>)
      requires Valid()
      modifies this`ledger, this`script, this`power, this`history
      ensures Valid() && Grown(old(history), history) && (ledger == old(ledger) || ledger == old(ledger) - {c})
      ensures ack.Some? <==> c in old(ledger) && Accepts(old(ledger)[c], Location(c), identity, files)
      ensures ack.Some? ==> ledger == old(ledger) && ack.value == ledger[c] && AckHeld(c, ack.value.files)
      ensures old(Calm()) ==> Calm()
    {
      hide Agrees;
      var left;
      ack, left := ReadAck(Lookup(ledger, c), Location(c), identity, files);
      if left.None? && c in ledger {
        DropAck(c);
      }
    }

    /** An empty directory goes; an acknowledged one is removed. */
    method FinishCandidate(c: Candidate)
      requires Valid()
      modifies this`captures, this`deletions, this`script, this`power, this`history, this`ledger, this`inventories
      ensures Valid() && Grown(old(history), history)
      ensures !accepting ==> captures == old(captures)
      ensures OnlyCandidate(old(captures), captures, c)
      ensures ledger == old(ledger) || ledger == old(ledger) - {c}
      ensures forall d :: d != c ==> Lookup(inventories, d) == Lookup(old(inventories), d)
      ensures old(Calm()) ==> Calm()
      ensures old(Calm() && accepting && c !in inventories && Acked(scene.digest, identity, captures, ledger, c)) ==>
        c !in captures
      ensures old(Calm() && accepting && c in captures && captures[c].entries == map[]) ==> c !in captures
      ensures captures.Keys <= old(captures).Keys
    {
      hide Agrees, MemberFile;
      var resolved := Resolve(c);
      if resolved.Empty? {
        inventories := inventories - {c};
        RemoveEmptySegment(c);
      }
      if resolved.Found? {
        FinishAcknowledged(c, resolved.names);
      }
    }

    method FinishAcknowledged(c: Candidate, names: set<string>)
      requires Valid() && c in captures && names == captures[c].entries.Keys && names != {} && Members(c, names)
      modifies this`captures, this`deletions, this`script, this`power, this`history, this`ledger, this`inventories
      ensures Valid() && Grown(old(history), history)
      ensures !accepting ==> captures == old(captures)
      ensures OnlyCandidate(old(captures), captures, c)
      ensures ledger == old(ledger) || ledger == old(ledger) - {c}
      ensures forall d :: d != c ==> Lookup(inventories, d) == Lookup(old(inventories), d)
      ensures old(Calm()) ==> Calm()
      ensures old(Calm() && accepting && c !in inventories && Acked(scene.digest, identity, captures, ledger, c)) ==>
        c !in captures
      ensures captures.Keys <= old(captures).Keys
    {
      hide Agrees, MemberFile, Acked, Accepts, InventoryGood, HashedAll, Members;
      var files := InventoryFor(c, names);
      if files.None? {
        return;
      }
      InventoryCanGo(c, c !in old(inventories));
      var ack := AckFor(c, files.value);
      if ack.Some? {
        var removed := DeleteConfirmed(c, ack.value.files);
        if removed {
          inventories := inventories - {c};
        }
      }
    }

    /** A fresh inventory of an acknowledged segment is accepted, and removal will find what it confirms. */
    lemma InventoryCanGo(c: Candidate, isFresh: bool)
      requires Valid() && c in captures && c in inventories && captures[c].entries != map[]
      requires Members(c, captures[c].entries.Keys)
      requires Unchanged(captures[c], inventories[c].identities)
      requires isFresh ==> HashedAll(scene.digest, captures[c], inventories[c].files)
      ensures isFresh && Acked(scene.digest, identity, captures, ledger, c) ==>
        && c in ledger && Accepts(ledger[c], Location(c), identity, inventories[c].files)
        && CanGo(c, ledger[c].files)
    {
      hide Agrees, MemberFile, HashedAll, DigestsOf, Distinct;
      if isFresh && Acked(scene.digest, identity, captures, ledger, c) {
        AckedIsAccepted(scene.digest, identity, captures, ledger, c, inventories[c].files);
        AcceptedCanGo(scene.digest, captures[c], c, inventories[c], ledger[c], identity);
        assert |captures[c].entries| == |captures[c].entries.Keys|;
      }
    }

    method RemoveEmptySegment(c: Candidate)
      requires Valid()
      modifies this`captures, this`ledger, this`script, this`power, this`history
      ensures Valid() && Grown(old(history), history) && (!accepting ==> captures == old(captures))
      ensures forall d :: d in old(captures) && d !in captures ==> old(captures)[d].entries == map[]
      ensures OnlyCandidate(old(captures), captures, c)
      ensures ledger == old(ledger) || ledger == old(ledger) - {c}
      ensures old(Calm()) ==> Calm()
      ensures old(Calm() && accepting && c in captures && captures[c].entries == map[]) ==> c !in captures
      ensures captures.Keys <= old(captures).Keys
    {
      hide Lawful, Replay;
      if accepting && c in captures && captures[c].entries == map[] {
        var outcome := Next();
        if outcome == Works {
          Extend(scene, history, DirectoryRemoved(c));
          captures, history := captures - {c}, history + [DirectoryRemoved(c)];
          DropAck(c);
        }
      }
    }

    /** Acknowledgements of segments that are gone. */
    method PruneLedger()
      requires Valid()
      modifies this`ledger, this`script, this`power, this`history
      ensures Valid() && Grown(old(history), history)
      ensures forall c :: c in captures ==> Lookup(ledger, c) == Lookup(old(ledger), c)
      ensures old(Calm()) ==> Calm() && ledger.Keys <= captures.Keys
    {
      hide Agrees;
      var gone := ledger.Keys - captures.Keys;
      while gone != {}
        invariant Valid() && Grown(old(history), history)
        invariant gone !! captures.Keys && ledger.Keys <= old(ledger).Keys
        invariant forall c :: c in captures ==> Lookup(ledger, c) == Lookup(old(ledger), c)
        invariant old(Calm()) ==> Calm() && ledger.Keys <= captures.Keys + gone
        decreases gone
      {
        var c :| c in gone;
        DropAck(c);
        gone := gone - {c};
      }
    }

    /**
     * Visits every segment. With no fault and no interference, every segment whose acknowledgement
     * covers its files is gone afterwards.
     */
    method FinishLocally()
      requires Valid()
      modifies this`captures, this`deletions, this`script, this`power, this`history, this`ledger, this`inventories
      ensures Valid() && Grown(old(history), history)
      ensures !accepting ==> captures == old(captures)
      ensures old(Calm()) ==> Calm()
      ensures old(Calm() && accepting && inventories == map[]) ==>
        forall c :: old(Acked(scene.digest, identity, captures, ledger, c)) ==> c !in captures
    {
      hide Agrees, Acked, FolderSound, InventoriesGood;
      ghost var before, acks := captures, ledger;
      PruneLedger();
      var left := captures.Keys;
      assert forall c :: c in left ==> Untouched(before, acks, old(inventories), c);
      while left != {}
        invariant Valid() && Grown(old(history), history)
        invariant !accepting ==> captures == old(captures)
        invariant old(Calm()) ==> Calm()
        invariant forall c :: c in left ==> Untouched(before, acks, old(inventories), c)
        invariant captures.Keys <= before.Keys && left <= before.Keys
        invariant old(Calm() && accepting && inventories == map[]) ==>
          forall c :: c in before && c !in left && Acked(scene.digest, identity, before, acks, c) ==> c !in captures
        decreases left
      {
        var c :| c in left;
        SameAcked(before, acks, c);
        FinishCandidate(c);
        left := left - {c};
      }
      OnlyCapturesAreAcked(before, acks);
    }

    /** Nothing about this segment has changed. */
    ghost predicate Untouched(captures': map<Candidate, Folder>, ledger': map<Candidate, Ack>,
                              inventories': map<Candidate, Inventory>, c: Candidate)
      reads this
    {
      && Lookup(captures, c) == Lookup(captures', c) && Lookup(ledger, c) == Lookup(ledger', c)
      && Lookup(inventories, c) == Lookup(inventories', c)
    }

    lemma SameAcked(captures': map<Candidate, Folder>, ledger': map<Candidate, Ack>, c: Candidate)
      requires FolderSound(captures) && FolderSound(captures')
      requires Lookup(captures, c) == Lookup(captures', c) && Lookup(ledger, c) == Lookup(ledger', c)
      ensures Acked(scene.digest, identity, captures', ledger', c) ==> Acked(scene.digest, identity, captures, ledger, c)
    {
    }

    lemma OnlyCapturesAreAcked(captures': map<Candidate, Folder>, ledger': map<Candidate, Ack>)
      requires FolderSound(captures')
      ensures forall c :: Acked(scene.digest, identity, captures', ledger', c) ==> c in captures'
    {
    }

    // ---------- Upload ----------

    /**
     * Writes the acknowledgement an answer justifies, then removes the files it covers. When the
     * acknowledgement could not be written, nothing is removed.
     */
    method Acknowledge(c: Candidate, acknowledged: seq<Descriptor>) returns (written: bool)
      requires Valid() && Justified(history, c, identity, acknowledged)
      modifies this`captures, this`deletions, this`script, this`power, this`history, this`ledger, this`inventories
      ensures Valid() && Grown(old(history), history)
      ensures OnlyCandidate(old(captures), captures, c)
      ensures !written ==> captures == old(captures) && inventories == old(inventories)
      ensures old(Calm()) ==> written && Calm()
      ensures written ==> c !in captures || (c in ledger && ledger[c] == WriteAck(Location(c), identity, acknowledged))
    {
      hide Agrees, Justified, MemberFile, WriteAck;
      written := StoreAck(c, acknowledged);
      if written {
        var removed := DeleteConfirmed(c, acknowledged);
        if removed {
          inventories := inventories - {c};
        }
      }
    }

    /** The ledger write can also take effect and still report a failure. */
    method StoreAck(c: Candidate, acknowledged: seq<Descriptor>) returns (written: bool)
      requires Valid() && Justified(history, c, identity, acknowledged)
      modifies this`script, this`power, this`history, this`ledger
      ensures Valid() && Grown(old(history), history)
      ensures ledger == old(ledger) || ledger == old(ledger)[c := WriteAck(Location(c), identity, acknowledged)]
      ensures written ==> AckHeld(c, acknowledged) && ledger[c] == WriteAck(Location(c), identity, acknowledged)
      ensures old(Calm()) ==> written && Calm()
    {
      hide Justified, Lawful, Replay;
      var outcome := Next();
      written := outcome == Works;
      if outcome == Works || outcome == Late {
        var ack := WriteAck(Location(c), identity, acknowledged);
        Extend(scene, history, AckStored(c, ack));
        ledger, history := ledger[c := ack], history + [AckStored(c, ack)];
      }
    }

    method NoteAnswer(c: Candidate, answer: Answer, files: seq<LocalFile>)
      requires Valid() && pending != [] && answer == pending[0]
      modifies this`history, this`pending
      ensures Valid() && pending == old(pending)[1..]
      ensures history == old(history) + [Answered(c, identity, answer, files)]
    {
      hide Lawful, Replay;
      var event := Answered(c, identity, answer, files);
      Extend(scene, history, event);
      history, pending := history + [event], pending[1..];
    }

    /**
     * One answer of the journal. Only an answer that justifies an acknowledgement has it stored, and
     * only when it could be stored are files removed.
     */
    method TakeAnswer(c: Candidate, files: seq<LocalFile>, answer: Answer) returns (written: bool)
      requires Valid() && Distinct(NamesOf(files)) && pending != [] && answer == pending[0]
      modifies this`captures, this`deletions, this`script, this`power, this`history, this`ledger, this`inventories, this`pending
      ensures Valid() && pending == old(pending)[1..]
      ensures Grown(old(history) + [Answered(c, identity, answer, files)], history)
      ensures OnlyCandidate(old(captures), captures, c)
      ensures (forall acknowledged :: !Justifies(answer, files, acknowledged)) ==>
        !written && ledger == old(ledger) && history == old(history) + [Answered(c, identity, answer, files)]
      ensures !written ==> captures == old(captures) && inventories == old(inventories)
      ensures old(Calm()) ==> Calm()
      ensures forall acknowledged :: Justifies(answer, files, acknowledged) ==>
        && (old(Calm()) ==> written)
        && (written ==> c !in captures || (c in ledger && ledger[c] == WriteAck(Location(c), identity, acknowledged)))
    {
      hide Agrees, Justified, Confirms, Distinct, AllWritten;
      NoteAnswer(c, answer, files);
      written := false;
      match answer {
        case Uploaded(result) =>
          var receipt := AssessReceipt(result, files);
          if receipt.Confirmed? {
            AnswerJustifies(history, c, identity, answer, files, receipt.files);
            OneReceipt(result, files, receipt.files);
            written := Acknowledge(c, receipt.files);
          }
        case SegmentRemoved =>
          AnswerJustifies(history, c, identity, answer, files, AllWritten(files));
          assert Justifies(answer, files, AllWritten(files));
          written := Acknowledge(c, AllWritten(files));
        case Kept =>
        case Ended =>
      }
    }

    /** The segment is among `due`, or its files as inventoried are acknowledged. */
    ghost predicate DueOrAccepted(due: seq<(Candidate, seq<LocalFile>)>, c: Candidate)
      reads this
    {
      || (exists i :: 0 <= i < |due| && due[i].0 == c)
      || (c in ledger && c in inventories && Accepts(ledger[c], Location(c), identity, inventories[c].files))
    }

    /**
     * Every segment that resolves is due, unless it has an acknowledgement that is good for its
     * files, its next attempt lies ahead, or its files could not be read.
     */
    method DueForUpload(delayed: set<Candidate>) returns (due: seq<(Candidate, seq<LocalFile>)>, unreadable: set<Candidate>)
      requires Valid()
      modifies this`inventories, this`ledger, this`script, this`power, this`history
      ensures Valid() && Grown(old(history), history) && DueSound(captures, inventories, due, delayed)
      ensures forall c :: Resolvable(captures, c) ==> DueOrAccepted(due, c) || c in delayed || c in unreadable
      ensures old(Calm()) ==> Calm() && unreadable == {}
    {
      hide Agrees, MemberFile, Distinct, Accepts, InventoryGood, Members, DueRightly;
      due, unreadable := [], {};
      var left := captures.Keys;
      while left != {}
        invariant Valid() && Grown(old(history), history) && DueSound(captures, inventories, due, delayed)
        invariant left <= captures.Keys && forall i :: 0 <= i < |due| ==> due[i].0 !in left
        invariant forall c :: Resolvable(captures, c) && c !in left ==> DueOrAccepted(due, c) || c in delayed || c in unreadable
        invariant old(Calm()) ==> Calm() && unreadable == {}
        decreases left
      {
        var c :| c in left;
        left := left - {c};
        ghost var before, acks, known := due, ledger, inventories;
        var readable;
        due, readable := ConsiderForUpload(c, delayed, due);
        unreadable := if readable then unreadable else unreadable + {c};
        forall d | Resolvable(captures, d) && d !in left && d != c
          ensures DueOrAccepted(due, d) || d in delayed || d in unreadable
        {
          StillDue(before, due, acks, known, d);
        }
      }
    }

    lemma StillDue(before: seq<(Candidate, seq<LocalFile>)>, due: seq<(Candidate, seq<LocalFile>)>,
                   acks: map<Candidate, Ack>, known: map<Candidate, Inventory>, d: Candidate)
      requires before <= due && Lookup(ledger, d) == Lookup(acks, d) && Lookup(inventories, d) == Lookup(known, d)
      ensures (exists i :: 0 <= i < |before| && before[i].0 == d) ==> DueOrAccepted(due, d)
      ensures d in acks && d in known && Accepts(acks[d], Location(d), identity, known[d].files) ==> DueOrAccepted(due, d)
    {
      hide Accepts;
      if i :| 0 <= i < |before| && before[i].0 == d {
        assert due[i].0 == d;
      }
    }

    method ConsiderForUpload(c: Candidate, delayed: set<Candidate>, before: seq<(Candidate, seq<LocalFile>)>)
      returns (due: seq<(Candidate, seq<LocalFile>)>, readable: bool)
      requires Valid() && c in captures && DueSound(captures, inventories, before, delayed)
      requires forall i :: 0 <= i < |before| ==> before[i].0 != c
      modifies this`inventories, this`ledger, this`script, this`power, this`history
      ensures Valid() && Grown(old(history), history) && DueSound(captures, inventories, due, delayed)
      ensures due == before || (|due| == |before| + 1 && before <= due && due[|before|].0 == c)
      ensures Resolvable(captures, c) ==> DueOrAccepted(due, c) || c in delayed || !readable
      ensures ledger == old(ledger) || ledger == old(ledger) - {c}
      ensures forall d :: d != c ==> Lookup(inventories, d) == Lookup(old(inventories), d)
      ensures old(Calm()) ==> Calm() && readable
    {
      hide Agrees, MemberFile, Distinct, Accepts, InventoryGood, Members;
      due, readable := before, true;
      var resolved := Resolve(c);
      if resolved.Found? {
        var files := InventoryFor(c, resolved.names);
        DueStaysSound(captures, old(inventories), inventories, before, delayed, c);
        if files.None? {
          return before, false;
        }
        InventoryNamesAreDistinct(c, inventories[c]);
        var ack := AckFor(c, files.value);
        if ack.None? && c !in delayed {
          due := before + [(c, files.value)];
          assert due[|before|].0 == c;
        }
      }
    }

    /**
     * Local finishing, then the uploads that are due: while the machine runs and the answers last,
     * each is asked about once, in order, until an answer ends the sweep.
     */
    method SweepOnce(answers: seq<Answer>, delayed: set<Candidate>) returns (due: seq<(Candidate, seq<LocalFile>)>)
      requires Valid() && pending == answers
      modifies this`captures, this`deletions, this`script, this`power, this`history, this`ledger, this`inventories, this`pending
      ensures Valid() && Grown(old(history), history)
      ensures old(Calm()) ==> forall i :: 0 <= i < |due| && i < |answers| && Ended !in answers[..i] ==>
        Asked(history, identity, due[i], answers[i])
    {
      hide Agrees, Resolvable, DueOrAccepted;
      FinishLocally();
      var unreadable;
      due, unreadable := DueForUpload(delayed);
      assert forall j :: 0 <= j < |due| ==> DueRightly(captures, inventories, due[j], delayed);
      AskAbout(due, answers);
    }

    /** Asks about each in order, while the machine runs and no answer ended the sweep. */
    method AskAbout(due: seq<(Candidate, seq<LocalFile>)>, answers: seq<Answer>)
      requires Valid() && pending == answers && forall i :: 0 <= i < |due| ==> Distinct(NamesOf(due[i].1))
      modifies this`captures, this`deletions, this`script, this`power, this`history, this`ledger, this`inventories, this`pending
      ensures Valid() && Grown(old(history), history)
      ensures old(Calm()) ==> forall i :: 0 <= i < |due| && i < |answers| && Ended !in answers[..i] ==>
        Asked(history, identity, due[i], answers[i])
    {
      hide Valid, Distinct;
      var i := 0;
      while i < |due| && i < |answers| && power && Ended !in answers[..i]
        invariant 0 <= i <= |due| && i <= |answers| && pending == answers[i..]
        invariant Valid() && Grown(old(history), history)
        invariant old(Calm()) ==> Calm()
        invariant forall j :: 0 <= j < i ==> Asked(history, identity, due[j], answers[j])
      {
        ghost var before := history + [Answered(due[i].0, identity, answers[i], due[i].1)];
        StillAsked(history, before, identity, due, answers, i);
        assert before[|history|] in before;
        var _ := TakeAnswer(due[i].0, due[i].1, answers[i]);
        StillAsked(before, history, identity, due, answers, i + 1);
        i := i + 1;
      }
      assert forall k :: i < k <= |answers| ==> answers[..i] == answers[..k][..i];
    }

    // ---------- Any run ----------

    /** Takes note of the operation, and carries out what is not the keeper's own work. */
    method Begin(op: Op)
      requires Valid()
      modifies this`history, this`captures, this`identity, this`accepting, this`power, this`inventories, this`ops, this`pending
      ensures Valid() && history == old(history) + [Ran(op)] && ops == old(ops) + [op]
      ensures op.Sweep? ==> pending == op.answers
    {
      hide Lawful, Replay, InventoryGood, After, SoundOnly;
      Extend(scene, history, Ran(op));
      RanChanges(scene, Replay(scene, history), op);
      history, ops, pending := history + [Ran(op)], ops + [op], if op.Sweep? then op.answers else [];
      match op {
        case Outside(change) => captures := SoundOnly(change);
        case RePair(other) => identity, inventories := other, map[];
        case Restart => power, accepting, inventories := true, true, map[];
        case CloseFence => accepting := false;
        case _ =>
      }
    }

    method Do(op: Op)
      requires Valid()
      modifies this
      ensures Valid() && Grown(old(history) + [Ran(op)], history) && ops == old(ops) + [op]
    {
      hide Agrees;
      Begin(op);
      match op {
        case LocalFinish => FinishLocally();
        case Sweep(answers, delayed) => var _ := SweepOnce(answers, delayed);
        case _ =>
      }
    }
  }

  /** The journal gave this answer about these files. */
  predicate Asked(h: History, identity: Identity, about: (Candidate, seq<LocalFile>), answer: Answer) {
    Answered(about.0, identity, answer, about.1) in h
  }

  lemma StillAsked(before: History, now: History, identity: Identity, due: seq<(Candidate, seq<LocalFile>)>,
                   answers: seq<Answer>, i: nat)
    requires Grown(before, now) && i <= |due| && i <= |answers|
    requires forall j :: 0 <= j < i ==> Asked(before, identity, due[j], answers[j])
    ensures forall j :: 0 <= j < i ==> Asked(now, identity, due[j], answers[j])
  {
    assert forall e :: e in now[..|before|] ==> e in now;
  }

  predicate Resolvable(captures: map<Candidate, Folder>, c: Candidate) {
    c in captures && captures[c].entries != map[] && Members(c, captures[c].entries.Keys)
  }

  predicate DueRightly(captures: map<Candidate, Folder>, inventories: map<Candidate, Inventory>,
                       due: (Candidate, seq<LocalFile>), delayed: set<Candidate>)
  {
    && Resolvable(captures, due.0) && due.0 !in delayed && Distinct(NamesOf(due.1))
    && due.0 in inventories && inventories[due.0].files == due.1
  }

  /** Each is a segment that resolves and is not delayed, with the files as inventoried, and none is there twice. */
  predicate DueSound(captures: map<Candidate, Folder>, inventories: map<Candidate, Inventory>,
                     due: seq<(Candidate, seq<LocalFile>)>, delayed: set<Candidate>)
  {
    && (forall i :: 0 <= i < |due| ==> DueRightly(captures, inventories, due[i], delayed))
    && (forall i, j :: 0 <= i < j < |due| ==> due[i].0 != due[j].0)
  }

  lemma DueStaysSound(captures: map<Candidate, Folder>, before: map<Candidate, Inventory>, now: map<Candidate, Inventory>,
                      due: seq<(Candidate, seq<LocalFile>)>, delayed: set<Candidate>, c: Candidate)
    requires DueSound(captures, before, due, delayed) && forall i :: 0 <= i < |due| ==> due[i].0 != c
    requires forall d :: d != c ==> Lookup(now, d) == Lookup(before, d)
    ensures DueSound(captures, now, due, delayed)
  {
    hide Resolvable, Distinct;
    forall i | 0 <= i < |due|
      ensures DueRightly(captures, now, due[i], delayed)
    {
      assert DueRightly(captures, before, due[i], delayed);
      assert Lookup(now, due[i].0) == Lookup(before, due[i].0);
    }
  }

  lemma RanChanges(scene: Scene, w: World, op: Op)
    ensures After(scene, w, Ran(op)) == AfterOp(w, op).(ops := w.ops + [op])
    ensures op.Outside? ==> FolderSound(SoundOnly(op.captures))
  {
  }

  /** Only the directory of `c` may differ. */
  ghost predicate OnlyCandidate(before: map<Candidate, Folder>, now: map<Candidate, Folder>, c: Candidate) {
    forall d :: d != c ==> Lookup(now, d) == Lookup(before, d)
  }

  /** An answer confirms one list of files only. */
  lemma OneReceipt(result: UploadResult, files: seq<LocalFile>, acknowledged: seq<Descriptor>)
    requires Confirms(result, files, acknowledged)
    ensures forall other :: Confirms(result, files, other) ==> other == acknowledged
  {
  }

  lemma AnswerJustifies(h: History, c: Candidate, identity: Identity, answer: Answer, files: seq<LocalFile>,
                        acknowledged: seq<Descriptor>)
    requires h != [] && h[|h| - 1] == Answered(c, identity, answer, files) && Justifies(answer, files, acknowledged)
    ensures Justified(h, c, identity, acknowledged)
  {
    hide Justifies;
    assert h[|h| - 1] in h && JustifiedBy(h[|h| - 1], c, identity, acknowledged);
  }

  /**
   * Over any run of sweeps, local finishes, outside changes, re-pairings, stops and restarts: the
   * log is lawful and names exactly these operations, captures and ledger are its replay, and
   * every unlinked file held bytes that the journal paired at that moment had acknowledged for its
   * name, by a valid receipt or by reporting the segment removed.
   */
  method Run(scene: Scene, script: seq<Outcome>, ops: seq<Op>)
    returns (captures: map<Candidate, Folder>, ledger: map<Candidate, Ack>, history: History)
    ensures Lawful(scene, history)
    ensures captures == Replay(scene, history).captures && ledger == Replay(scene, history).ledger
    ensures Replay(scene, history).ops == ops
    ensures forall i: nat :: i < |history| && history[i].Unlinked? ==> UnlinkConfirmed(scene, history, i)
  {
    hide UnlinkConfirmed, Lawful;
    var keeper := new Keeper(scene, script);
    for i := 0 to |ops|
      invariant keeper.Valid() && keeper.scene == scene && fresh(keeper) && keeper.ops == ops[..i]
    {
      keeper.Do(ops[i]);
    }
    captures, ledger, history := keeper.captures, keeper.ledger, keeper.history;
    UnlinksAreConfirmed(scene, history);
  }
}
