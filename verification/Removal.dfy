/**
 * Removing the files of one confirmed segment, and putting them back when that stops midway.
 *
 * Files are inodes; a directory maps names to them. Outside programs may change the directory
 * and the inodes in any way at the hook before each file. An inode that is held open stays
 * readable after its name is gone.
 */
module Removal {
  import opened Prelude
  import Text

  datatype Inode = Inode(bytes: Bytes, stamp: int)

  datatype Folder = Folder(entries: map<string, nat>, inodes: map<nat, Inode>)

  /** `stamp` stands for the modification and change times. */
  datatype FileIdentity = FileIdentity(name: string, inode: nat, size: nat, stamp: int)

  datatype RemovalResult = Removed | Absent | Refused | Failed

  datatype Outcome = Works | Refuses | Late | Stops

  /** A file that was unlinked, with the bytes it held at that moment. */
  datatype Unlink = Unlink(name: string, bytes: Bytes)

  predicate Sound(f: Folder) {
    forall n :: n in f.entries ==> f.entries[n] in f.inodes
  }

  /** Whatever an outside program made of the folder; inodes are never reused. */
  function Disturbed(before: Folder, after: Folder): (f: Folder)
    ensures Sound(f) && before.inodes.Keys <= f.inodes.Keys
  {
    var inodes := before.inodes + after.inodes;
    Folder(map n | n in after.entries && after.entries[n] in inodes :: after.entries[n], inodes)
  }

  function IdentityOf(f: Folder, name: string): FileIdentity
    requires Sound(f) && name in f.entries
  {
    var inode := f.inodes[f.entries[name]];
    FileIdentity(name, f.entries[name], |inode.bytes|, inode.stamp)
  }

  /** The same inode, with the same length. */
  predicate Matches(f: Folder, id: FileIdentity)
    requires Sound(f)
  {
    id.name in f.entries && f.entries[id.name] == id.inode && |f.inodes[id.inode].bytes| == id.size
  }

  function ConflictName(i: nat): string { ".retention-conflict-" + Text.Decimal(i) }

  /** Members of a segment: every name is distinct, and none is hidden. */
  predicate MemberNames(expected: seq<FileIdentity>) {
    && (forall i :: 0 <= i < |expected| ==> expected[i].name != "" && expected[i].name[0] != '.')
    && (forall i, j :: 0 <= i < j < |expected| ==> expected[i].name != expected[j].name)
  }

  /** The folder holds exactly these files, unchanged since they were inventoried. */
  predicate Unchanged(f: Folder, expected: seq<FileIdentity>)
    requires Sound(f)
  {
    && |f.entries| == |expected|
    && forall i :: 0 <= i < |expected| ==> expected[i].name in f.entries && IdentityOf(f, expected[i].name) == expected[i]
  }

  // ---------- What restoring promises ----------

  /** Every inode keeps its content. */
  predicate InodesKept(before: Folder, now: Folder) {
    forall k :: k in before.inodes ==> k in now.inodes && now.inodes[k] == before.inodes[k]
  }

  /** The name holds the bytes of the retained inode. */
  predicate HoldsRetained(before: Folder, now: Folder, id: FileIdentity)
    requires Sound(now) && id.inode in before.inodes
  {
    id.name in now.entries && now.inodes[now.entries[id.name]].bytes == before.inodes[id.inode].bytes
  }

  predicate UnderName(now: Folder, name: string, inode: nat) {
    name in now.entries && now.entries[name] == inode
  }

  /** A file found in the folder is still there, under its name or under the conflict name of the file it displaced. */
  predicate Survives(before: Folder, now: Folder, expected: seq<FileIdentity>, name: string)
    requires name in before.entries
  {
    || UnderName(now, name, before.entries[name])
    || exists j :: 0 <= j < |expected| && expected[j].name == name && UnderName(now, ConflictName(j), before.entries[name])
  }

  predicate Retained(f: Folder, expected: seq<FileIdentity>) {
    forall i :: 0 <= i < |expected| ==> expected[i].inode in f.inodes
  }

  predicate EntrySame(before: Folder, now: Folder, name: string) {
    Lookup(now.entries, name) == Lookup(before.entries, name)
  }

  /** The first `i` files are put back, and the names from the `k`-th on are as they were. */
  predicate RestoredTo(before: Folder, now: Folder, expected: seq<FileIdentity>, i: nat, k: nat, restored: bool)
    requires Retained(before, expected) && i <= k <= |expected|
  {
    && Sound(now) && InodesKept(before, now)
    && (restored ==> forall j :: 0 <= j < i ==> HoldsRetained(before, now, expected[j]))
    && (forall n :: n in before.entries ==> Survives(before, now, expected, n))
    && (forall j :: k <= j < |expected| ==> EntrySame(before, now, expected[j].name))
  }

  lemma NotAConflictName(expected: seq<FileIdentity>)
    requires MemberNames(expected)
    ensures forall i, j: nat :: 0 <= i < |expected| ==> expected[i].name != ConflictName(j)
  {
    forall i, j: nat | 0 <= i < |expected|
      ensures expected[i].name != ConflictName(j)
    {
      assert ConflictName(j)[0] == '.';
    }
  }

  /** Moving an intruder aside to a free conflict name. */
  function Aside(f: Folder, name: string, conflict: string): Folder
    requires name in f.entries
  {
    f.(entries := (f.entries - {name})[conflict := f.entries[name]])
  }

  /** A new file with these bytes. */
  function WithFile(f: Folder, name: string, inode: nat, bytes: Bytes): Folder {
    Folder(f.entries[name := inode], f.inodes[inode := Inode(bytes, 0)])
  }

  lemma AsideKeeps(before: Folder, now: Folder, expected: seq<FileIdentity>, i: nat, restored: bool)
    requires Retained(before, expected) && MemberNames(expected) && i < |expected|
    requires RestoredTo(before, now, expected, i, i, restored)
    requires expected[i].name in now.entries && ConflictName(i) !in now.entries
    ensures RestoredTo(before, Aside(now, expected[i].name, ConflictName(i)), expected, i, i + 1, restored)
  {
    NotAConflictName(expected);
    hide ConflictName;
    var after := Aside(now, expected[i].name, ConflictName(i));
    forall n | n in before.entries
      ensures Survives(before, after, expected, n)
    {
      if n == expected[i].name {
        assert EntrySame(before, now, n);
        assert UnderName(after, ConflictName(i), before.entries[n]);
      }
    }
  }

  lemma WritingKeeps(before: Folder, now: Folder, expected: seq<FileIdentity>, i: nat, restored: bool, inode: nat)
    requires Retained(before, expected) && MemberNames(expected) && i < |expected|
    requires RestoredTo(before, now, expected, i, i + 1, restored)
    requires expected[i].name !in now.entries && inode !in now.inodes
    ensures RestoredTo(before, WithFile(now, expected[i].name, inode, before.inodes[expected[i].inode].bytes), expected,
                       i + 1, i + 1, restored)
  {
    NotAConflictName(expected);
    hide ConflictName;
    var after := WithFile(now, expected[i].name, inode, before.inodes[expected[i].inode].bytes);
    forall n | n in before.entries
      ensures Survives(before, after, expected, n)
    {
      assert Survives(before, now, expected, n);
    }
  }

  lemma GivingUpKeeps(before: Folder, now: Folder, expected: seq<FileIdentity>, i: nat, k: nat, restored: bool)
    requires Retained(before, expected) && i <= k <= i + 1 <= |expected|
    requires RestoredTo(before, now, expected, i, k, restored)
    ensures RestoredTo(before, now, expected, i + 1, i + 1, false)
  {
  }

  lemma UntouchedHolds(before: Folder, now: Folder, expected: seq<FileIdentity>, i: nat, restored: bool)
    requires Retained(before, expected) && i < |expected| && RestoredTo(before, now, expected, i, i, restored)
    requires Matches(now, expected[i])
    ensures RestoredTo(before, now, expected, i + 1, i + 1, restored)
  {
  }

  method FreshInode(inodes: map<nat, Inode>) returns (n: nat)
    ensures n !in inodes
  {
    n := 0;
    ghost var left := inodes.Keys;
    while n in inodes
      invariant forall k :: k in inodes && k >= n ==> k in left
      decreases left
    {
      left := left - {n};
      n := n + 1;
    }
  }

  // ---------- The directory of one segment ----------

  ghost predicate Undisturbed(hook: (nat, Folder) -> Folder) {
    forall i: nat, f: Folder :: hook(i, f) == f
  }

  predicate Confirmed(f: Folder, id: FileIdentity, digests: map<string, string>, digest: Bytes -> string) {
    id.inode in f.inodes && id.name in digests && digest(f.inodes[id.inode].bytes) == digests[id.name]
  }

  predicate Removable(f: Folder, id: FileIdentity, digests: map<string, string>, digest: Bytes -> string)
    requires Sound(f)
  {
    Matches(f, id) && Confirmed(f, id, digests, digest)
  }

  predicate AllConfirmed(f: Folder, expected: seq<FileIdentity>, digests: map<string, string>, digest: Bytes -> string) {
    forall i :: 0 <= i < |expected| ==> Confirmed(f, expected[i], digests, digest)
  }

  predicate AllRemovable(f: Folder, expected: seq<FileIdentity>, digests: map<string, string>, digest: Bytes -> string)
    requires Sound(f)
  {
    expected != [] && Unchanged(f, expected) && AllConfirmed(f, expected, digests, digest)
  }

  function NameSet(expected: seq<FileIdentity>): (names: set<string>)
    ensures forall n :: n in names <==> exists i :: 0 <= i < |expected| && expected[i].name == n
  {
    set i | 0 <= i < |expected| :: expected[i].name
  }

  lemma {:induction false} NameSetSize(expected: seq<FileIdentity>)
    requires forall i, j :: 0 <= i < j < |expected| ==> expected[i].name != expected[j].name
    ensures |NameSet(expected)| == |expected|
  {
    if expected != [] {
      var init, last := expected[..|expected| - 1], expected[|expected| - 1];
      NameSetSize(init);
      assert NameSet(expected) == NameSet(init) + {last.name};
    }
  }

  /** An unchanged folder has no other files. */
  lemma UnchangedNames(f: Folder, expected: seq<FileIdentity>)
    requires Sound(f) && Unchanged(f, expected) && MemberNames(expected)
    ensures NameSet(expected) == f.entries.Keys
  {
    NameSetSize(expected);
    SubsetOfSameSize(NameSet(expected), f.entries.Keys);
  }

  lemma SubsetOfSameSize(a: set<string>, b: set<string>)
    requires a <= b && |a| == |b|
    ensures a == b
  {
    forall n | n in b
      ensures n in a
    {
      if n !in a {
        SizeOfSubset(a, b - {n});
      }
    }
  }

  lemma {:induction false} SizeOfSubset(a: set<string>, b: set<string>)
    requires a <= b
    ensures |a| <= |b|
  {
    if n :| n in a {
      SizeOfSubset(a - {n}, b - {n});
    }
  }

  /** One removal: the folder it starts from, what outside programs do, and what may go. */
  datatype Job = Job(start: Folder, hook: (nat, Folder) -> Folder, digest: Bytes -> string, expected: seq<FileIdentity>,
                     digests: map<string, string>)

  /** The folder after the hook ran before each of the first `i` files and each of these was unlinked. */
  function AfterUnlinks(job: Job, i: nat): (f: Folder)
    requires Sound(job.start) && i <= |job.expected|
    ensures Sound(f)
    decreases i, 0
  {
    if i == 0 then job.start
    else
      var seen := Seen(job, i - 1);
      seen.(entries := seen.entries - {job.expected[i - 1].name})
  }

  /** The folder as it is found after the hook before file `i`. */
  function Seen(job: Job, i: nat): (f: Folder)
    requires Sound(job.start) && i <= |job.expected|
    ensures Sound(f) && AfterUnlinks(job, i).inodes.Keys <= f.inodes.Keys
    decreases i, 1
  {
    Disturbed(AfterUnlinks(job, i), job.hook(i, AfterUnlinks(job, i)))
  }

  /** The file that was unlinked: the inventoried one, with the confirmed bytes, as it lay in the folder at that moment. */
  predicate Taken(job: Job, i: nat, gone: Unlink)
    requires Sound(job.start) && i < |job.expected|
  {
    var id, seen := job.expected[i], Seen(job, i);
    && Matches(seen, id) && gone == Unlink(id.name, seen.inodes[id.inode].bytes)
    && id.name in job.digests && job.digest(gone.bytes) == job.digests[id.name]
  }

  /** The first `count` files were unlinked, in order, and nothing else. */
  predicate TakenFirst(job: Job, before: seq<Unlink>, now: seq<Unlink>, count: nat)
    requires Sound(job.start)
  {
    && count <= |job.expected| && |now| == |before| + count && now[..|before|] == before
    && forall j :: |before| <= j < |now| ==> Taken(job, j - |before|, now[j])
  }

  class SegmentFolder {
    var folder: Folder
    var present: bool
    var script: seq<Outcome>
    var power: bool
    /** What outside programs do at the hook before each file. */
    const hook: (nat, Folder) -> Folder
    const digest: Bytes -> string
    /** Everything unlinked, in order. */
    var unlinked: seq<Unlink>

    constructor (folder: Folder, hook: (nat, Folder) -> Folder, digest: Bytes -> string, script: seq<Outcome>)
      ensures this.folder == folder && present && power && unlinked == []
      ensures this.hook == hook && this.digest == digest && this.script == script
    {
      this.folder := folder;
      this.hook := hook;
      this.digest := digest;
      this.script := script;
      present, power, unlinked := true, true, [];
    }

    /** No fault is coming and no outside program interferes. */
    ghost predicate Calm()
      reads this
    {
      power && script == [] && Undisturbed(hook)
    }

    method Next() returns (outcome: Outcome)
      modifies this`script, this`power
      ensures old(Calm()) ==> outcome == Works && Calm()
    {
      if !power {
        return Refuses;
      }
      if script == [] {
        return Works;
      }
      outcome := script[0];
      script := script[1..];
      if outcome == Stops {
        power := false;
      }
    }

    /** Writes the retained bytes under the name again. */
    method PutBack(name: string, bytes: Bytes) returns (ok: bool, inode: nat)
      requires name !in folder.entries
      modifies this`folder, this`script, this`power
      ensures inode !in old(folder).inodes
      ensures folder == old(folder) || folder == WithFile(old(folder), name, inode, bytes)
      ensures ok ==> folder == WithFile(old(folder), name, inode, bytes)
      ensures old(Calm()) ==> Calm()
    {
      inode := FreshInode(folder.inodes);
      var outcome := Next();
      if outcome == Works || outcome == Late {
        folder := WithFile(folder, name, inode, bytes);
      }
      ok := outcome == Works;
    }

    /** One file: left alone when it is still there, otherwise whatever took its name moves aside. */
    method RestoreOne(expected: seq<FileIdentity>, i: nat, ghost before: Folder, ghost restored: bool) returns (ok: bool)
      requires Retained(before, expected) && MemberNames(expected) && i < |expected|
      requires RestoredTo(before, folder, expected, i, i, restored)
      modifies this`folder, this`script, this`power
      ensures RestoredTo(before, folder, expected, i + 1, i + 1, restored && ok)
      ensures old(Calm()) ==> Calm()
    {
      hide RestoredTo, ConflictName, MemberNames;
      var id := expected[i];
      assert Sound(folder) && id.inode in folder.inodes by {
        RestoredIsSound(before, folder, expected, i, restored);
      }
      if Matches(folder, id) {
        UntouchedHolds(before, folder, expected, i, restored);
        return true;
      }
      if id.name in folder.entries {
        var moved := false;
        if ConflictName(i) !in folder.entries {
          var outcome := Next();
          moved := outcome == Works;
        }
        if !moved {
          GivingUpKeeps(before, folder, expected, i, i, restored);
          return false;
        }
        AsideKeeps(before, folder, expected, i, restored);
        folder := Aside(folder, id.name, ConflictName(i));
      } else {
        EntryAlreadyGone(before, folder, expected, i, restored);
      }
      ok := RestoreBytes(expected, i, before, restored);
    }

    method RestoreBytes(expected: seq<FileIdentity>, i: nat, ghost before: Folder, ghost restored: bool) returns (ok: bool)
      requires Retained(before, expected) && MemberNames(expected) && i < |expected|
      requires RestoredTo(before, folder, expected, i, i + 1, restored) && expected[i].name !in folder.entries
      modifies this`folder, this`script, this`power
      ensures RestoredTo(before, folder, expected, i + 1, i + 1, restored && ok)
      ensures old(Calm()) ==> Calm()
    {
      hide MemberNames;
      assert folder.inodes[expected[i].inode] == before.inodes[expected[i].inode];
      hide RestoredTo;
      ghost var aside := folder;
      var read := Next();
      ok := false;
      if read == Works {
        var inode;
        ok, inode := PutBack(expected[i].name, folder.inodes[expected[i].inode].bytes);
        WritingKeeps(before, aside, expected, i, restored, inode);
      }
      GivingUpKeeps(before, aside, expected, i, i + 1, restored);
      if folder != aside && !ok {
        WrittenButUnsure(before, folder, expected, i + 1, restored);
      }
    }

    /** Puts every file back that is not where it was. Nothing is ever unlinked. */
    method Restore(expected: seq<FileIdentity>) returns (restored: bool)
      requires Sound(folder) && Retained(folder, expected) && MemberNames(expected)
      modifies this`folder, this`script, this`power
      ensures RestoredTo(old(folder), folder, expected, |expected|, |expected|, restored)
      ensures old(Calm()) ==> Calm()
    {
      hide MemberNames, RestoredTo;
      restored := true;
      StartsRestored(folder, expected);
      for i := 0 to |expected|
        invariant RestoredTo(old(folder), folder, expected, i, i, restored)
        invariant old(Calm()) ==> Calm()
      {
        var ok := RestoreOne(expected, i, old(folder), restored);
        restored := restored && ok;
      }
    }

    // ---------- Removing ----------

    /** The hook ran before file `i`, and its name went if it was unlinked. */
    function AfterLook(before: Folder, name: string, i: nat, gone: bool): Folder {
      var seen := Disturbed(before, hook(i, before));
      if gone then seen.(entries := seen.entries - {name}) else seen
    }

    /**
     * The hook, then one file: its name must still lead to the same inode with the same length,
     * and its bytes must hash to the confirmed digest. Only then is the name unlinked.
     */
    method UnlinkOne(expected: seq<FileIdentity>, digests: map<string, string>, i: nat) returns (ok: bool)
      requires i < |expected| && Retained(folder, expected)
      modifies this`folder, this`script, this`power, this`unlinked
      ensures Sound(folder) && Retained(folder, expected)
      ensures folder == AfterLook(old(folder), expected[i].name, i, ok)
      ensures !ok ==> unlinked == old(unlinked)
      ensures ok ==> Matches(Disturbed(old(folder), hook(i, old(folder))), expected[i])
      ensures ok ==> expected[i].name in digests
      ensures ok ==> var bytes := Disturbed(old(folder), hook(i, old(folder))).inodes[expected[i].inode].bytes;
        digest(bytes) == digests[expected[i].name] && unlinked == old(unlinked) + [Unlink(expected[i].name, bytes)]
      ensures old(Calm()) && old(Sound(folder)) && Removable(old(folder), expected[i], digests, digest) ==> ok
      ensures old(Calm()) ==> Calm()
    {
      CalmIsUndisturbed(folder, i);
      folder := Disturbed(folder, hook(i, folder));
      var id := expected[i];
      ok := false;
      if Matches(folder, id) && id.name in digests {
        var bytes := folder.inodes[id.inode].bytes;
        var read := Next();
        if read == Works && digest(bytes) == digests[id.name] {
          var outcome := Next();
          ok := outcome == Works;
          if ok {
            folder := folder.(entries := folder.entries - {id.name});
            unlinked := unlinked + [Unlink(id.name, bytes)];
          }
        }
      }
    }

    lemma CalmIsUndisturbed(f: Folder, i: nat)
      ensures Calm() && Sound(f) ==> Disturbed(f, hook(i, f)) == f
    {
      if Undisturbed(hook) && Sound(f) {
        assert hook(i, f) == f;
        assert f.inodes + f.inodes == f.inodes;
        assert (map n | n in f.entries && f.entries[n] in f.inodes :: f.entries[n]) == f.entries;
      }
    }

    function JobFrom(start: Folder, expected: seq<FileIdentity>, digests: map<string, string>): Job {
      Job(start, hook, digest, expected, digests)
    }

    /**
     * Unlinks the files of an unchanged directory one by one, then removes it. Every file that is
     * unlinked held the confirmed bytes at that moment; when anything fails, the files are put back.
     */
    method Delete(expected: seq<FileIdentity>, digests: map<string, string>)
      returns (r: RemovalResult, restored: bool, ghost stopped: Folder, ghost count: nat)
      requires Sound(folder) && MemberNames(expected)
      modifies this
      ensures Sound(folder) && TakenFirst(JobFrom(old(folder), expected, digests), old(unlinked), unlinked, count)
      ensures r == Removed || r == Failed ==> old(present) && Unchanged(old(folder), expected) && expected != []
      ensures r == Removed || r == Failed ==> stopped == StoppedAt(JobFrom(old(folder), expected, digests), count)
      ensures r == Removed ==> count == |expected| && !present && folder == stopped && folder.entries == map[]
      ensures r == Absent <==> !old(present)
      ensures old(Calm() && present) && AllRemovable(old(folder), expected, digests, digest) ==> r == Removed
      ensures r == Absent || r == Refused ==> folder == old(folder) && count == 0 && present == old(present)
      ensures r == Failed ==> present && Retained(stopped, expected)
      ensures r == Failed ==> RestoredTo(stopped, folder, expected, |expected|, |expected|, restored)
      ensures old(Calm()) ==> Calm()
    {
      hide RestoredTo, MemberNames, Taken;
      restored, stopped, count := false, folder, 0;
      NothingTaken(JobFrom(folder, expected, digests), unlinked);
      if !present {
        return Absent, restored, stopped, count;
      }
      if expected == [] || !Unchanged(folder, expected) {
        return Refused, restored, stopped, count;
      }
      var readable := Next();
      if readable != Works {
        return Refused, restored, stopped, count;
      }
      UnchangedIsRetained(folder, expected);
      UnchangedNames(folder, expected);
      var ok;
      ok, count := UnlinkAll(expected, digests);
      if ok {
        ok := RemoveEmpty();
      }
      stopped := folder;
      if ok {
        return Removed, restored, stopped, count;
      }
      restored := Restore(expected);
      RestoredStaysSound(stopped, folder, expected, restored);
      return Failed, restored, stopped, count;
    }

    /** The next file of a removal. */
    method UnlinkNext(ghost job: Job, expected: seq<FileIdentity>, digests: map<string, string>, i: nat) returns (ok: bool)
      requires i < |expected| && Retained(folder, expected)
      requires Sound(job.start) && job == JobFrom(job.start, expected, digests) && folder == AfterUnlinks(job, i)
      modifies this`folder, this`script, this`power, this`unlinked
      ensures Sound(folder) && Retained(folder, expected)
      ensures folder == if ok then AfterUnlinks(job, i + 1) else Seen(job, i)
      ensures !ok ==> unlinked == old(unlinked)
      ensures ok ==> |unlinked| == |old(unlinked)| + 1 && unlinked[..|old(unlinked)|] == old(unlinked)
      ensures ok ==> Taken(job, i, unlinked[|old(unlinked)|])
      ensures old(Calm()) && OnTrack(job, old(folder), i) ==> ok && OnTrack(job, folder, i + 1)
      ensures old(Calm()) ==> Calm()
    {
      CalmIsUndisturbed(folder, i);
      OnTrackNext(job, folder, i);
      assert Seen(job, i) == Disturbed(folder, hook(i, folder));
      ok := UnlinkOne(expected, digests, i);
    }

    method UnlinkAll(expected: seq<FileIdentity>, digests: map<string, string>) returns (ok: bool, ghost count: nat)
      requires Sound(folder) && Retained(folder, expected) && MemberNames(expected)
      modifies this`folder, this`script, this`power, this`unlinked
      ensures Sound(folder) && Retained(folder, expected)
      ensures old(Calm()) && AllRemovable(old(folder), expected, digests, digest) ==>
        ok && Calm() && folder.entries == old(folder).entries - NameSet(expected)
      ensures TakenFirst(JobFrom(old(folder), expected, digests), old(unlinked), unlinked, count)
      ensures ok <==> count == |expected|
      ensures folder == StoppedAt(JobFrom(old(folder), expected, digests), count)
      ensures old(Calm()) ==> Calm()
    {
      hide Taken, Retained, OnTrack, Calm, MemberNames, TakenFirst, AfterUnlinks, Seen, Sound, AllRemovable, NameSet, StoppedAt;
      ghost var job := JobFrom(folder, expected, digests);
      NothingTaken(job, unlinked);
      StartsOnTrack(job);
      for i := 0 to |expected|
        invariant Sound(folder) && Retained(folder, expected) && folder == AfterUnlinks(job, i)
        invariant old(Calm()) ==> Calm()
        invariant TakenFirst(job, old(unlinked), unlinked, i)
        invariant old(Calm()) && OnTrack(job, old(folder), 0) ==> OnTrack(job, folder, i)
      {
        ghost var before := unlinked;
        ok := UnlinkNext(job, expected, digests, i);
        if !ok {
          StoppedThere(job, i);
          return false, i;
        }
        OneMoreTaken(job, old(unlinked), before, unlinked, i);
      }
      OnTrackToTheEnd(job, folder);
      StoppedThere(job, |expected|);
      return true, |expected|;
    }

    /** Removes the directory, which must be empty by now. */
    method RemoveEmpty() returns (ok: bool)
      modifies this`present, this`script, this`power
      ensures old(Calm()) && folder.entries == map[] ==> ok
      ensures present == (old(present) && !ok)
      ensures ok ==> folder.entries == map[]
      ensures old(Calm()) ==> Calm()
    {
      var outcome := Next();
      ok := outcome == Works && folder.entries == map[];
      if ok {
        present := false;
      }
    }
  }

  /** Every file could be removed at the start, and the first `i` names are gone and nothing else has changed. */
  predicate OnTrack(job: Job, now: Folder, i: nat)
    requires Sound(job.start) && i <= |job.expected|
  {
    && MemberNames(job.expected) && AllRemovable(job.start, job.expected, job.digests, job.digest)
    && now == job.start.(entries := job.start.entries - NameSet(job.expected[..i]))
  }

  lemma StartsOnTrack(job: Job)
    requires Sound(job.start)
    ensures AfterUnlinks(job, 0) == job.start
    ensures MemberNames(job.expected) && AllRemovable(job.start, job.expected, job.digests, job.digest) ==>
      OnTrack(job, job.start, 0)
  {
    assert NameSet(job.expected[..0]) == {};
    assert job.start.entries - {} == job.start.entries;
  }

  lemma StoppedThere(job: Job, i: nat)
    requires Sound(job.start) && i <= |job.expected|
    ensures StoppedAt(job, i) == if i < |job.expected| then Seen(job, i) else AfterUnlinks(job, i)
  {
  }

  lemma OnTrackNext(job: Job, now: Folder, i: nat)
    requires Sound(job.start) && i < |job.expected|
    ensures OnTrack(job, now, i) ==>
      && Sound(now) && Removable(now, job.expected[i], job.digests, job.digest)
      && OnTrack(job, now.(entries := now.entries - {job.expected[i].name}), i + 1)
  {
    assert NameSet(job.expected[..i + 1]) == NameSet(job.expected[..i]) + {job.expected[i].name};
    assert job.start.entries - NameSet(job.expected[..i]) - {job.expected[i].name}
        == job.start.entries - NameSet(job.expected[..i + 1]);
  }

  lemma OnTrackToTheEnd(job: Job, now: Folder)
    requires Sound(job.start)
    ensures OnTrack(job, now, |job.expected|) ==> now.entries == job.start.entries - NameSet(job.expected)
  {
    assert job.expected[..|job.expected|] == job.expected;
  }

  /** Where the unlinking ended: after the last file, or at the file it did not unlink. */
  function StoppedAt(job: Job, count: nat): (f: Folder)
    requires Sound(job.start) && count <= |job.expected|
    ensures Sound(f)
  {
    if count < |job.expected| then Seen(job, count) else AfterUnlinks(job, count)
  }

  lemma OneMoreTaken(job: Job, start: seq<Unlink>, before: seq<Unlink>, now: seq<Unlink>, count: nat)
    requires Sound(job.start) && count < |job.expected| && TakenFirst(job, start, before, count)
    requires |now| == |before| + 1 && now[..|before|] == before && Taken(job, count, now[|before|])
    ensures TakenFirst(job, start, now, count + 1)
  {
    hide Taken;
    assert now[..|start|] == before[..|start|];
    forall j | |start| <= j < |now|
      ensures Taken(job, j - |start|, now[j])
    {
      assert j < |before| ==> now[j] == before[j];
    }
  }

  lemma NothingTaken(job: Job, before: seq<Unlink>)
    requires Sound(job.start)
    ensures TakenFirst(job, before, before, 0)
  {
  }

  lemma UnchangedIsRetained(f: Folder, expected: seq<FileIdentity>)
    requires Sound(f) && Unchanged(f, expected)
    ensures Retained(f, expected)
  {
  }

  lemma RestoredStaysSound(before: Folder, now: Folder, expected: seq<FileIdentity>, restored: bool)
    requires Retained(before, expected) && RestoredTo(before, now, expected, |expected|, |expected|, restored)
    ensures Sound(now)
  {
  }

  lemma RestoredIsSound(before: Folder, now: Folder, expected: seq<FileIdentity>, i: nat, restored: bool)
    requires Retained(before, expected) && i < |expected| && RestoredTo(before, now, expected, i, i, restored)
    ensures Sound(now) && expected[i].inode in now.inodes
  {
  }

  lemma EntryAlreadyGone(before: Folder, now: Folder, expected: seq<FileIdentity>, i: nat, restored: bool)
    requires Retained(before, expected) && i < |expected| && RestoredTo(before, now, expected, i, i, restored)
    ensures RestoredTo(before, now, expected, i, i + 1, restored)
  {
  }

  lemma WrittenButUnsure(before: Folder, now: Folder, expected: seq<FileIdentity>, i: nat, restored: bool)
    requires Retained(before, expected) && i <= |expected| && RestoredTo(before, now, expected, i, i, restored)
    ensures RestoredTo(before, now, expected, i, i, false)
  {
  }

  lemma StartsRestored(f: Folder, expected: seq<FileIdentity>)
    requires Sound(f) && Retained(f, expected)
    ensures RestoredTo(f, f, expected, 0, 0, true)
  {
  }
}
