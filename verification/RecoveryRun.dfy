/**
 * Recovery as it changes the disk, step by step.
 *
 * Every step takes its outcome from a script: it works, it is refused, it takes effect but
 * reports a failure, or the machine stops and nothing takes effect any more. A run that is
 * cut off is therefore the run of some script. Until an fsync, a power cut may keep any of the
 * changes since the last one and lose the others.
 */
module RecoveryRun {
  import opened Prelude
  import opened Jsonl
  import opened Storage
  import opened Records
  import opened SegmentLog
  import opened Recovery
  import opened Validation

  datatype Outcome = Works | Refused | Late | Stops

  /** One change of a directory entry or of a file's content. */
  datatype Edit =
    | DirMove(from: string, to: string)
    | MetaMove(from: string, to: string)
    | DirGone(name: string)
    | MetaGone(name: string)
    | MetaSet(name: string, file: MetaFile)
    | ZoneSet(m: Meta)
    | FileSet(dir: string, name: string, bytes: Bytes)
    | FileGone(dir: string, name: string)

  function Apply(t: Tree, e: Edit): Tree {
    match e
    case DirMove(from, to) => DirRenamed(t, from, to)
    case MetaMove(from, to) => MetaRenamed(t, from, to)
    case DirGone(name) => WithoutDir(t, name)
    case MetaGone(name) => WithoutMeta(t, name)
    case MetaSet(name, file) => t.(metas := t.metas[name := file])
    case ZoneSet(m) => WithZone(t, m)
    case FileSet(dir, name, bytes) => if dir in t.dirs then WithDir(t, dir, t.dirs[dir][name := bytes]) else t
    case FileGone(dir, name) => if dir in t.dirs then WithDir(t, dir, t.dirs[dir] - {name}) else t
  }

  /** What may be left when this change may be kept or lost. */
  function KeptOrLost(trees: set<Tree>, e: Edit): set<Tree> {
    trees + set t | t in trees :: Apply(t, e)
  }

  class StreamDirectory {
    var tree: Tree
    /** What a power cut may leave. */
    var possible: set<Tree>
    var script: seq<Outcome>
    var power: bool

    constructor (tree: Tree, script: seq<Outcome>)
      ensures this.tree == tree && this.script == script && power && Settled()
    {
      this.tree := tree;
      this.possible := {tree};
      this.script := script;
      power := true;
    }

    /** Nothing is left to fsync. */
    predicate Settled()
      reads this`tree, this`possible
    {
      possible == {tree}
    }

    /** Every step from here on works. */
    predicate Reliable()
      reads this`script, this`power
    {
      power && script == []
    }

    method Next() returns (outcome: Outcome)
      modifies this`script, this`power
      ensures old(Reliable()) ==> outcome == Works && Reliable()
    {
      if !power {
        return Refused;
      }
      if script == [] {
        return Works;
      }
      outcome := script[0];
      script := script[1..];
      if outcome == Stops {
        power := false;
      }
    }

    /** One system call: a rename, a removal, a change of length. */
    method Change(e: Edit) returns (ok: bool)
      modifies this
      ensures tree == if ok then Apply(old(tree), e) else old(tree)
      ensures possible == if ok then KeptOrLost(old(possible), e) else old(possible)
      ensures old(Reliable()) ==> ok && Reliable()
    {
      var outcome := Next();
      ok := outcome == Works;
      if ok {
        tree, possible := Apply(tree, e), KeptOrLost(possible, e);
      }
    }

    /** An atomic file replacement with its fsync, which can also fail after it took effect. */
    method Write(e: Edit) returns (ok: bool)
      modifies this
      ensures ok ==> tree == Apply(old(tree), e) && Settled()
      ensures ok || (tree, possible) == (old(tree), old(possible))
           || (tree, possible) == (Apply(old(tree), e), KeptOrLost(old(possible), e))
      ensures old(Reliable()) ==> ok && Reliable()
    {
      var outcome := Next();
      ok := outcome == Works;
      if ok {
        tree := Apply(tree, e);
        possible := {tree};
      } else if outcome == Late {
        tree, possible := Apply(tree, e), KeptOrLost(possible, e);
      }
    }

    method Sync() returns (ok: bool)
      modifies this
      ensures tree == old(tree)
      ensures if ok then Settled() else possible == old(possible)
      ensures old(Reliable()) ==> ok && Reliable()
    {
      var outcome := Next();
      ok := outcome == Works;
      if ok {
        possible := {tree};
      }
    }
  }

  // ---------- Quarantine ----------

  /** The metadata moved aside, and the directory did not. */
  function MetaAside(t: Tree, stem: string, n: nat): Tree {
    MetaRenamed(t, MetaName(stem), FailedMeta(stem, n))
  }

  predicate QuarantiningAs(t: Tree, stem: string, n: nat, now: Tree) {
    now == t || now == DirAside(t, stem, n) || now == MetaAside(t, stem, n) || now == BothAside(t, stem, n)
  }

  ghost predicate Quarantining(t: Tree, stem: string, now: Tree) {
    exists n :: FirstFree(t, stem, n) && QuarantiningAs(t, stem, n, now)
  }

  lemma FirstFreeIsUnique(t: Tree, stem: string, a: nat, b: nat)
    requires FirstFree(t, stem, a) && FirstFree(t, stem, b)
    ensures a == b
  {
  }

  lemma MovedBack(t: Tree, stem: string, n: nat)
    requires Free(t, stem, n)
    ensures DirRenamed(DirAside(t, stem, n), FailedName(stem, n), IncompleteName(stem)) == t
    ensures DirRenamed(t, FailedName(stem, n), IncompleteName(stem)) == t
  {
    var from, to := IncompleteName(stem), FailedName(stem, n);
    if from in t.dirs {
      assert ((t.dirs - {from})[to := t.dirs[from]] - {to})[from := t.dirs[from]] == t.dirs;
    }
  }

  /** Searches a free number, then renames the directory and the metadata. */
  method MoveAside(disk: StreamDirectory, stem: string) returns (ok: bool)
    requires disk.Settled()
    modifies disk
    ensures forall now :: now in disk.possible ==> Quarantining(old(disk.tree), stem, now)
    ensures ok ==> disk.Settled() && disk.tree == Quarantine(old(disk.tree), stem)
    ensures disk.tree in disk.possible
    ensures old(disk.Reliable()) ==> disk.Reliable() && ok
  {
    hide FailedName, FailedMeta, IncompleteName, MetaName;
    ghost var t := disk.tree;
    var number := FirstFreeNumber(disk.tree, stem);
    assert BothAside(t, stem, number) == Quarantine(t, stem) by {
      QuarantineIs(t, stem, number);
    }
    ok := disk.Change(DirMove(IncompleteName(stem), FailedName(stem, number)));
    assert forall now :: now in disk.possible ==> now == t || now == DirAside(t, stem, number);
    if ok {
      ok := disk.Change(MetaMove(MetaName(stem), FailedMeta(stem, number)));
      if ok {
        assert forall now :: now in disk.possible ==> QuarantiningAs(t, stem, number, now);
        ok := disk.Sync();
      } else {
        MovedBack(t, stem, number);
        var _ := disk.Change(DirMove(FailedName(stem, number), IncompleteName(stem)));
        assert forall now :: now in disk.possible ==> QuarantiningAs(t, stem, number, now);
      }
    }
  }

  lemma QuarantineIs(t: Tree, stem: string, n: nat)
    requires FirstFree(t, stem, n)
    ensures Quarantine(t, stem) == BothAside(t, stem, n)
  {
    hide FailedName, FailedMeta, BothAside;
    forall j: nat | FirstFree(t, stem, j)
      ensures j == n
    {
      FirstFreeIsUnique(t, stem, j, n);
    }
  }

  method FirstFreeNumber(t: Tree, stem: string) returns (number: nat)
    ensures FirstFree(t, stem, number)
  {
    hide FailedName, FailedMeta;
    number := 0;
    ghost var left := t.dirs.Keys + t.metas.Keys;
    while !Free(t, stem, number)
      invariant forall j: nat :: j < number ==> !Free(t, stem, j)
      invariant Ahead(t, stem, number, left)
      decreases left
    {
      AheadOfNext(t, stem, number, left);
      left := left - {FailedName(stem, number), FailedMeta(stem, number)};
      number := number + 1;
    }
  }

  // ---------- Repair ----------

  function DirOf(t: Tree, name: string): Dir {
    if name in t.dirs then t.dirs[name] else map[]
  }

  /** A directory after a list of repairs. */
  function AfterRepairs(dir: Dir, repairs: seq<Repair>): Dir {
    map n | n in dir :: CutAll(dir[n], LengthsFor(repairs, n))
  }

  lemma OneMoreRepair(dir: Dir, repairs: seq<Repair>, i: nat)
    requires i < |repairs| && repairs[i].name in dir
    ensures var r := repairs[i];
      var now := AfterRepairs(dir, repairs[..i]);
      AfterRepairs(dir, repairs[..i + 1]) == now[r.name := Resize(now[r.name], r.length)]
  {
    var r := repairs[i];
    assert repairs[..i + 1][..i] == repairs[..i];
    forall n | n in dir
      ensures LengthsFor(repairs[..i + 1], n) == LengthsFor(repairs[..i], n) + (if r.name == n then [r.length] else [])
    {
    }
    var cuts := LengthsFor(repairs[..i], r.name);
    assert (cuts + [r.length])[..|cuts|] == cuts;
    assert forall n :: LengthsFor(repairs[..i], n) + [] == LengthsFor(repairs[..i], n);
  }

  lemma RepairsSoFar(decode: Decoder, stem: string, dir: Dir, m: Meta, repairs: seq<Repair>, i: nat)
    requires RepairsAre(decode, stem, dir, m, repairs) && i <= |repairs|
    ensures PartlyRepaired(decode, stem, dir, m, AfterRepairs(dir, repairs[..i]))
    ensures i == |repairs| ==> AfterRepairs(dir, repairs[..i]) == Repaired(decode, stem, dir, m)
  {
    hide Cuts, LengthsFor, CutAll;
    forall n | n in dir
      ensures PartlyCut(dir[n], Cuts(decode, stem, dir, m, n), AfterRepairs(dir, repairs[..i])[n])
    {
      assert repairs == repairs[..i] + repairs[i..];
      LengthsForAppend(repairs[..i], repairs[i..], n);
      var all, done := Cuts(decode, stem, dir, m, n), LengthsFor(repairs[..i], n);
      assert all[..|done|] == done;
    }
    assert i == |repairs| ==> repairs[..i] == repairs;
  }

  lemma RepairedNamesExist(decode: Decoder, stem: string, dir: Dir, m: Meta, repairs: seq<Repair>, n: nat)
    requires RepairsAre(decode, stem, dir, m, repairs) && FilesGood(decode, stem, dir, m, n)
    ensures forall i :: 0 <= i < |repairs| ==> repairs[i].name in dir
  {
    hide Partition, KnownFiles, CommittedIds;
    forall i | 0 <= i < |repairs|
      ensures repairs[i].name in dir
    {
      var name := repairs[i].name;
      assert repairs == repairs[..i + 1] + repairs[i + 1..];
      LengthsForAppend(repairs[..i + 1], repairs[i + 1..], name);
      CutsAreOfExistingFiles(decode, stem, dir, m, name);
    }
  }

  lemma CutsAreOfExistingFiles(decode: Decoder, stem: string, dir: Dir, m: Meta, name: string)
    requires SessionsGood(decode, dir, m) && ActivityGood(stem, dir, m)
    ensures Cuts(decode, stem, dir, m, name) != [] ==> name in dir
  {
    hide SessionCuts;
    if k :| k in m.sessions && m.sessions[k].filename == name {
      assert SessionGood(decode, dir, m.sessions[k]);
    }
  }

  /** Sets the length of each file and fsyncs it. */
  method ApplyRepairs(disk: StreamDirectory, decode: Decoder, stem: string, m: Meta, repairs: seq<Repair>)
    returns (ok: bool)
    requires disk.Settled() && IncompleteName(stem) in disk.tree.dirs
    requires RepairsAre(decode, stem, disk.tree.dirs[IncompleteName(stem)], m, repairs)
    requires forall i :: 0 <= i < |repairs| ==> repairs[i].name in disk.tree.dirs[IncompleteName(stem)]
    modifies disk
    ensures forall now :: now in disk.possible ==> Repairing(decode, old(disk.tree), stem, m, now)
    ensures disk.tree in disk.possible
    ensures ok ==> disk.Settled() && var dir := old(disk.tree).dirs[IncompleteName(stem)];
      disk.tree == WithDir(old(disk.tree), IncompleteName(stem), Repaired(decode, stem, dir, m))
    ensures old(disk.Reliable()) ==> ok && disk.Reliable()
  {
    hide RepairsAre, PartlyRepaired, AfterRepairs, Repaired;
    var source := IncompleteName(stem);
    ghost var t, dir := disk.tree, disk.tree.dirs[source];
    assert disk.tree == WithDir(t, source, AfterRepairs(dir, repairs[..0])) by {
      NothingRepaired(dir);
      assert repairs[..0] == [];
      assert t.dirs[source := dir] == t.dirs;
    }
    for i := 0 to |repairs|
      invariant disk.Settled() && disk.tree == WithDir(t, source, AfterRepairs(dir, repairs[..i]))
      invariant old(disk.Reliable()) ==> disk.Reliable()
    {
      ok := ApplyRepair(disk, source, t, dir, repairs, i);
      if !ok {
        RepairsSoFar(decode, stem, dir, m, repairs, i);
        RepairsSoFar(decode, stem, dir, m, repairs, i + 1);
        return false;
      }
    }
    RepairsSoFar(decode, stem, dir, m, repairs, |repairs|);
    return true;
  }

  method ApplyRepair(disk: StreamDirectory, source: string, ghost t: Tree, ghost dir: Dir, repairs: seq<Repair>, i: nat)
    returns (ok: bool)
    requires i < |repairs| && repairs[i].name in dir
    requires disk.Settled() && disk.tree == WithDir(t, source, AfterRepairs(dir, repairs[..i]))
    modifies disk
    ensures forall now :: now in disk.possible ==>
      now == old(disk.tree) || now == WithDir(t, source, AfterRepairs(dir, repairs[..i + 1]))
    ensures disk.tree in disk.possible
    ensures ok ==> disk.Settled() && disk.tree == WithDir(t, source, AfterRepairs(dir, repairs[..i + 1]))
    ensures old(disk.Reliable()) ==> ok && disk.Reliable()
  {
    hide AfterRepairs, Resize;
    var file := DirOf(disk.tree, source);
    var repair := repairs[i];
    OneMoreStep(t, source, dir, repairs, i);
    ok := disk.Change(FileSet(source, repair.name, Resize(file[repair.name], repair.length)));
    if ok {
      ok := disk.Sync();
    }
  }

  lemma WithDirTwice(t: Tree, source: string, first: Dir, second: Dir)
    ensures WithDir(WithDir(t, source, first), source, second) == WithDir(t, source, second)
    ensures DirOf(WithDir(t, source, first), source) == first
  {
    assert t.dirs[source := first][source := second] == t.dirs[source := second];
  }

  lemma OneMoreStep(t: Tree, source: string, dir: Dir, repairs: seq<Repair>, i: nat)
    requires i < |repairs| && repairs[i].name in dir
    ensures var now := AfterRepairs(dir, repairs[..i]);
      var before := WithDir(t, source, now);
      && DirOf(before, source) == now && repairs[i].name in now
      && WithDir(before, source, now[repairs[i].name := Resize(now[repairs[i].name], repairs[i].length)])
         == WithDir(t, source, AfterRepairs(dir, repairs[..i + 1]))
  {
    hide WithDir, DirOf, Resize, LengthsFor, CutAll;
    var now := AfterRepairs(dir, repairs[..i]);
    OneMoreRepair(dir, repairs, i);
    WithDirTwice(t, source, now, now[repairs[i].name := Resize(now[repairs[i].name], repairs[i].length)]);
  }

  lemma NothingRepaired(dir: Dir)
    ensures AfterRepairs(dir, []) == dir
  {
  }

  /** Some of the repairs are made, and nothing else has changed. */
  ghost predicate Repairing(decode: Decoder, t: Tree, stem: string, m: Meta, now: Tree)
    requires IncompleteName(stem) in t.dirs
  {
    exists dir :: PartlyRepaired(decode, stem, t.dirs[IncompleteName(stem)], m, dir) && now == WithDir(t, IncompleteName(stem), dir)
  }

  // ---------- Finalizing ----------

  datatype RecoveryError = Io

  /** The last steps: metadata, rename, zone, metadata gone. */
  ghost predicate Closing(t: Tree, stem: string, dir: Dir, final: Meta, now: Tree) {
    || now == Written(t, stem, dir, final)
    || now == RenamedTo(t, stem, dir, final)
    || now == WithZone(RenamedTo(t, stem, dir, final), final)
    || now == Done(t, stem, dir, final)
  }

  ghost predicate RepairedOrClosing(t: Tree, stem: string, dir: Dir, final: Meta, now: Tree) {
    now == WithDir(t, IncompleteName(stem), dir) || Closing(t, stem, dir, final, now)
  }

  /** Records the final metadata and renames the directory; a refused rename puts the old metadata back. */
  method RecordAndRename(disk: StreamDirectory, stem: string, ghost t: Tree, ghost dir: Dir, final: Meta)
    returns (r: Result<bool, RecoveryError>)
    requires IncompleteName(stem) in t.dirs && MetaName(stem) in t.metas
    requires disk.Settled() && disk.tree == WithDir(t, IncompleteName(stem), dir)
    modifies disk
    ensures forall now :: now in disk.possible ==> RepairedOrClosing(t, stem, dir, final, now)
    ensures disk.tree in disk.possible
    ensures r == Ok(true) ==> disk.tree == RenamedTo(t, stem, dir, final)
    ensures r == Ok(true) ==> forall now :: now in disk.possible ==> Closing(t, stem, dir, final, now)
    ensures r == Ok(false) ==> disk.Settled() && disk.tree == WithDir(t, IncompleteName(stem), dir)
    ensures old(disk.Reliable()) ==> r == Ok(true) && disk.Reliable()
  {
    hide DirRenamed, IncompleteName, MetaName;
    var original := disk.tree.metas[MetaName(stem)];
    var ok := disk.Write(MetaSet(MetaName(stem), Record(final)));
    if !ok {
      return Err(Io);
    }
    ok := disk.Change(DirMove(IncompleteName(stem), final.finalizedDir));
    if ok {
      return Ok(true);
    }
    assert t.metas[MetaName(stem) := Record(final)][MetaName(stem) := original] == t.metas;
    ok := disk.Write(MetaSet(MetaName(stem), original));
    return if ok then Ok(false) else Err(Io);
  }

  /** Everything after the rename. */
  method DropMetadata(disk: StreamDirectory, stem: string, ghost t: Tree, ghost dir: Dir, final: Meta) returns (ok: bool)
    requires disk.tree == RenamedTo(t, stem, dir, final) && disk.tree in disk.possible
    requires forall now :: now in disk.possible ==> Closing(t, stem, dir, final, now)
    modifies disk
    ensures forall now :: now in disk.possible ==> Closing(t, stem, dir, final, now)
    ensures disk.tree in disk.possible
    ensures ok ==> disk.Settled() && disk.tree == Done(t, stem, dir, final)
    ensures old(disk.Reliable()) ==> disk.Reliable() && ok
  {
    hide RenamedTo, IncompleteName, MetaName;
    ok := disk.Sync();
    if ok {
      ok := disk.Write(ZoneSet(final));
    }
    if ok {
      ok := disk.Change(MetaGone(MetaName(stem)));
    }
    if ok {
      ok := disk.Sync();
    }
  }

  /** What validating, repairing and finalizing can leave, wherever it is cut off. */
  ghost predicate Finishing(decode: Decoder, t: Tree, stem: string, m: Meta, now: Tree)
    requires IncompleteName(stem) in t.dirs
  {
    var dir := t.dirs[IncompleteName(stem)];
    if n :| Valid(decode, stem, dir, m, n) then
      || Repairing(decode, t, stem, m, now)
      || Closing(t, stem, Repaired(decode, stem, dir, m), Updated(decode, stem, dir, m, n).(lifecycle := Finalizing), now)
    else Quarantining(t, stem, now)
  }

  lemma ValidIsUnique(decode: Decoder, stem: string, dir: Dir, m: Meta, a: nat, b: nat)
    requires Valid(decode, stem, dir, m, a) && Valid(decode, stem, dir, m, b)
    ensures a == b
  {
    hide Partition, CommittedIds, SessionsGood, KnownFiles, ActivityGood, NeedsRepair;
    PartitionIsUnique(CommittedIds(decode, dir, m), a, b);
  }

  /** Finish and Finishing for the one count the files have. */
  lemma FinishFor(decode: Decoder, t: Tree, stem: string, m: Meta, n: nat, now: Tree)
    requires IncompleteName(stem) in t.dirs
    requires Valid(decode, stem, t.dirs[IncompleteName(stem)], m, n)
    ensures var dir := t.dirs[IncompleteName(stem)];
      var final := Updated(decode, stem, dir, m, n).(lifecycle := Finalizing);
      && Finish(decode, t, stem, m) == (Done(t, stem, Repaired(decode, stem, dir, m), final),
         if NeedsRepair(decode, stem, dir, m) then RepairedThenFinalized else FinalizedExactly)
      && (Finishing(decode, t, stem, m, now) <==>
            Repairing(decode, t, stem, m, now) || Closing(t, stem, Repaired(decode, stem, dir, m), final, now))
  {
    hide Valid, Updated, NeedsRepair, Repaired, Done, Closing, Repairing;
    forall k: nat | Valid(decode, stem, t.dirs[IncompleteName(stem)], m, k)
      ensures k == n
    {
      ValidIsUnique(decode, stem, t.dirs[IncompleteName(stem)], m, k, n);
    }
  }

  method FinishSource(disk: StreamDirectory, decode: Decoder, stem: string, m: Meta)
    returns (r: Result<Action, RecoveryError>)
    requires Checked(stem, m)
    requires disk.Settled() && IncompleteName(stem) in disk.tree.dirs && MetaName(stem) in disk.tree.metas
    modifies disk
    ensures forall now :: now in disk.possible ==> Finishing(decode, old(disk.tree), stem, m, now)
    ensures disk.tree in disk.possible && (r.Ok? ==> disk.Settled())
    ensures r.Ok? && r.value != Failed ==> (disk.tree, r.value) == Finish(decode, old(disk.tree), stem, m)
    ensures old(disk.Reliable()) ==> disk.Reliable() && r.Ok? && r.value != Failed
  {
    hide Valid, Quarantine, Quarantining, Checked, RepairsAre, Updated;
    var verdict := ValidateFiles(decode, stem, disk.tree.dirs[IncompleteName(stem)], m);
    if verdict.Contradictory? {
      var ok := MoveAside(disk, stem);
      return if ok then Ok(Quarantined) else Err(Io);
    }
    r := RepairAndFinalize(disk, decode, stem, m, verdict.repairs, verdict.updated);
  }

  method RepairAndFinalize(disk: StreamDirectory, decode: Decoder, stem: string, m: Meta, repairs: seq<Repair>, updated: Meta)
    returns (r: Result<Action, RecoveryError>)
    requires disk.Settled() && IncompleteName(stem) in disk.tree.dirs && MetaName(stem) in disk.tree.metas
    requires RepairsAre(decode, stem, disk.tree.dirs[IncompleteName(stem)], m, repairs)
    requires exists n :: var dir := disk.tree.dirs[IncompleteName(stem)];
      Valid(decode, stem, dir, m, n) && updated == Updated(decode, stem, dir, m, n)
    modifies disk
    ensures forall now :: now in disk.possible ==> Finishing(decode, old(disk.tree), stem, m, now)
    ensures disk.tree in disk.possible && (r.Ok? ==> disk.Settled())
    ensures r.Ok? && r.value != Failed ==> (disk.tree, r.value) == Finish(decode, old(disk.tree), stem, m)
    ensures old(disk.Reliable()) ==> disk.Reliable() && r.Ok? && r.value != Failed
  {
    hide Valid, Updated, NeedsRepair, Repaired, Closing, Finish, Finishing;
    ghost var t, dir := disk.tree, disk.tree.dirs[IncompleteName(stem)];
    ghost var n :| Valid(decode, stem, dir, m, n) && updated == Updated(decode, stem, dir, m, n);
    ghost var rep := Repaired(decode, stem, dir, m);
    assert forall i :: 0 <= i < |repairs| ==> repairs[i].name in dir by {
      ValidFilesGood(decode, stem, dir, m, n);
      RepairedNamesExist(decode, stem, dir, m, repairs, n);
    }
    var final := updated.(lifecycle := Finalizing);
    var ok := ApplyRepairs(disk, decode, stem, m, repairs);
    FinishForAll(decode, t, stem, m, n, disk.possible);
    if !ok {
      return Err(Io);
    }
    assert Repairing(decode, t, stem, m, WithDir(t, IncompleteName(stem), rep));
    hide Repairing, WithDir, RenamedTo, Done, RepairsAre;
    assert (repairs == []) == !NeedsRepair(decode, stem, dir, m) by {
      RepairsOnlyWhenNeeded(decode, stem, dir, m, repairs);
    }
    r := Conclude(disk, decode, stem, t, rep, final, repairs != []);
    FinishForAll(decode, t, stem, m, n, disk.possible);
  }

  lemma FinishForAll(decode: Decoder, t: Tree, stem: string, m: Meta, n: nat, trees: set<Tree>)
    requires IncompleteName(stem) in t.dirs
    requires Valid(decode, stem, t.dirs[IncompleteName(stem)], m, n)
    ensures var dir := t.dirs[IncompleteName(stem)];
      var final := Updated(decode, stem, dir, m, n).(lifecycle := Finalizing);
      && Finish(decode, t, stem, m) == (Done(t, stem, Repaired(decode, stem, dir, m), final),
         if NeedsRepair(decode, stem, dir, m) then RepairedThenFinalized else FinalizedExactly)
      && forall now :: now in trees ==>
           (Finishing(decode, t, stem, m, now) <==>
              Repairing(decode, t, stem, m, now) || Closing(t, stem, Repaired(decode, stem, dir, m), final, now))
  {
    hide Valid, Updated, NeedsRepair, Repaired, Done, Closing, Repairing, Finishing, Finish;
    FinishFor(decode, t, stem, m, n, t);
    forall now | now in trees
      ensures var dir := t.dirs[IncompleteName(stem)];
        var final := Updated(decode, stem, dir, m, n).(lifecycle := Finalizing);
        Finishing(decode, t, stem, m, now) <==>
          Repairing(decode, t, stem, m, now) || Closing(t, stem, Repaired(decode, stem, dir, m), final, now)
    {
      FinishFor(decode, t, stem, m, n, now);
    }
  }

  lemma ValidFilesGood(decode: Decoder, stem: string, dir: Dir, m: Meta, n: nat)
    requires Valid(decode, stem, dir, m, n)
    ensures FilesGood(decode, stem, dir, m, n)
  {
  }

  lemma RepairsOnlyWhenNeeded(decode: Decoder, stem: string, dir: Dir, m: Meta, repairs: seq<Repair>)
    requires RepairsAre(decode, stem, dir, m, repairs)
    ensures repairs == [] <==> !NeedsRepair(decode, stem, dir, m)
  {
  }

  method Conclude(disk: StreamDirectory, decode: Decoder, stem: string, ghost t: Tree, ghost dir: Dir, final: Meta, repaired: bool)
    returns (r: Result<Action, RecoveryError>)
    requires IncompleteName(stem) in t.dirs && MetaName(stem) in t.metas
    requires disk.Settled() && disk.tree == WithDir(t, IncompleteName(stem), dir)
    modifies disk
    ensures forall now :: now in disk.possible ==> RepairedOrClosing(t, stem, dir, final, now)
    ensures disk.tree in disk.possible && (r.Ok? ==> disk.Settled())
    ensures r.Ok? && r.value != Failed ==>
      && disk.tree == Done(t, stem, dir, final)
      && r.value == if repaired then RepairedThenFinalized else FinalizedExactly
    ensures old(disk.Reliable()) ==> disk.Reliable() && r.Ok? && r.value != Failed
  {
    hide Closing, WithDir, RenamedTo, Done, IncompleteName, MetaName;
    var renamed := RecordAndRename(disk, stem, t, dir, final);
    if renamed.Err? {
      return Err(Io);
    }
    if !renamed.value {
      return Ok(Failed);
    }
    var ok := DropMetadata(disk, stem, t, dir, final);
    return if !ok then Err(Io) else if repaired then Ok(RepairedThenFinalized) else Ok(FinalizedExactly);
  }

  // ---------- One candidate ----------

  /** Some of the empty files are gone. */
  ghost predicate Emptying(t: Tree, stem: string, dir: Dir, now: Tree) {
    exists names :: now == WithDir(t, IncompleteName(stem), dir - names)
  }

  /** Some of the empty files are gone, or the directory is; the metadata may be gone too. */
  ghost predicate EmptyGoing(t: Tree, stem: string, dir: Dir, now: Tree) {
    exists u :: (Emptying(t, stem, dir, u) || u == WithoutDir(t, IncompleteName(stem)))
             && (now == u || now == WithoutMeta(u, MetaName(stem)))
  }

  ghost predicate SourceReached(decode: Decoder, t: Tree, stem: string, m: Meta, now: Tree)
    requires IncompleteName(stem) in t.dirs
  {
    if Taken(t, m.finalizedDir) then now == t
    else if !EmptyRecord(m) then Finishing(decode, t, stem, m, now)
    else now == t || now == Cleared(t, stem) || ClearedReached(decode, Cleared(t, stem), stem, m, now)
  }

  ghost predicate ClearedReached(decode: Decoder, t: Tree, stem: string, m: Meta, now: Tree)
    requires IncompleteName(stem) in t.dirs
  {
    var dir := t.dirs[IncompleteName(stem)];
    if OtherActivity(stem, dir) then Finishing(decode, t, stem, m, now)
    else if AllEmpty(dir) then EmptyGoing(t, stem, dir, now)
    else Quarantining(t, stem, now)
  }

  ghost predicate OrphanReached(decode: Decoder, t: Tree, stem: string, m: Meta, now: Tree) {
    || now == t || now == RecoverOrphan(decode, t, stem, m).0
    || (Exact(decode, t, stem, m) && now == WithZone(t, m))
  }

  /** Every state in which recovery of one candidate can be cut off. */
  ghost predicate Reached(decode: Decoder, t: Tree, stem: string, interval: nat, now: Tree) {
    if !TimeName(stem) then Quarantining(t, stem, now)
    else if MetaName(stem) !in t.metas then now == t
    else if t.metas[MetaName(stem)].Torn? || !MetaConsistent(t.metas[MetaName(stem)].meta, stem) then
      Quarantining(t, stem, now)
    else
      var m := t.metas[MetaName(stem)].meta;
      if IncompleteName(stem) in t.dirs then
        SourceReached(decode, t, stem, RecordLength(m, stem, m.elapsedNanos, interval), now)
      else OrphanReached(decode, t, stem, m, now)
  }

  lemma ConsistentIsChecked(m: Meta, stem: string, elapsed: nat, interval: nat)
    requires MetaConsistent(m, stem)
    ensures Checked(stem, m) && Checked(stem, RecordLength(m, stem, elapsed, interval))
  {
    assert forall k :: k in m.sessions ==> SessionConsistent(m, k, m.sessions[k]);
  }

  /** Recovers one interrupted segment. */
  method RecoverCandidate(disk: StreamDirectory, decode: Decoder, stem: string, interval: nat)
    returns (r: Result<Action, RecoveryError>)
    requires disk.Settled()
    modifies disk
    ensures forall now :: now in disk.possible ==> Reached(decode, old(disk.tree), stem, interval, now)
    ensures disk.tree in disk.possible && (r.Ok? ==> disk.Settled())
    ensures r.Ok? && r.value != Failed ==> (disk.tree, r.value) == Recover(decode, old(disk.tree), stem, interval)
    ensures old(disk.Reliable()) ==> disk.Reliable() && r.Ok? && (disk.tree, r.value) == Recover(decode, old(disk.tree), stem, interval)
  {
    hide SourceReached, OrphanReached, Quarantine, Quarantining, RecoverSource, RecoverOrphan, MetaConsistent, RecordLength,
         TimeName, Checked;
    if !TimeName(stem) {
      var ok := MoveAside(disk, stem);
      return if ok then Ok(Quarantined) else Err(Io);
    }
    if MetaName(stem) !in disk.tree.metas {
      return Ok(Retained);
    }
    var file := disk.tree.metas[MetaName(stem)];
    if file.Torn? || !MetaConsistent(file.meta, stem) {
      var ok := MoveAside(disk, stem);
      return if ok then Ok(Quarantined) else Err(Io);
    }
    var m := file.meta;
    ConsistentIsChecked(m, stem, m.elapsedNanos, interval);
    if IncompleteName(stem) in disk.tree.dirs {
      r := RecoverDirectory(disk, decode, stem, RecordLength(m, stem, m.elapsedNanos, interval));
    } else {
      r := RecoverMetadata(disk, decode, stem, m);
    }
  }

  /** Metadata without its directory: creation never got further, or the rename already happened. */
  method RecoverMetadata(disk: StreamDirectory, decode: Decoder, stem: string, m: Meta)
    returns (r: Result<Action, RecoveryError>)
    requires disk.Settled() && Checked(stem, m)
    modifies disk
    ensures forall now :: now in disk.possible ==> OrphanReached(decode, old(disk.tree), stem, m, now)
    ensures disk.tree in disk.possible && (r.Ok? ==> disk.Settled())
    ensures r.Ok? ==> r.value != Failed && (disk.tree, r.value) == RecoverOrphan(decode, old(disk.tree), stem, m)
    ensures old(disk.Reliable()) ==> disk.Reliable() && r.Ok?
  {
    hide Valid, Checked;
    var ok := true;
    if m.lifecycle != Creating && !EmptyRecord(m) {
      var exact := false;
      if m.finalizedDir in disk.tree.dirs {
        var verdict := ValidateFiles(decode, stem, disk.tree.dirs[m.finalizedDir], m);
        exact := verdict.Agreement? && verdict.repairs == [];
      }
      if !exact {
        return Ok(Retained);
      }
      ok := disk.Write(ZoneSet(m));
    }
    if ok {
      ok := disk.Change(MetaGone(MetaName(stem)));
    }
    if ok {
      ok := disk.Sync();
    }
    return if ok then Ok(Removed) else Err(Io);
  }

  method RecoverDirectory(disk: StreamDirectory, decode: Decoder, stem: string, m: Meta)
    returns (r: Result<Action, RecoveryError>)
    requires Checked(stem, m)
    requires disk.Settled() && IncompleteName(stem) in disk.tree.dirs && MetaName(stem) in disk.tree.metas
    modifies disk
    ensures forall now :: now in disk.possible ==> SourceReached(decode, old(disk.tree), stem, m, now)
    ensures disk.tree in disk.possible && (r.Ok? ==> disk.Settled())
    ensures r.Ok? && r.value != Failed ==> (disk.tree, r.value) == RecoverSource(decode, old(disk.tree), stem, m)
    ensures old(disk.Reliable()) ==> disk.Reliable() && r.Ok? && (disk.tree, r.value) == RecoverSource(decode, old(disk.tree), stem, m)
  {
    hide Checked, Finish, Finishing, Quarantine, Quarantining;
    if Taken(disk.tree, m.finalizedDir) {
      return Ok(Failed);
    }
    if !EmptyRecord(m) {
      r := FinishSource(disk, decode, stem, m);
      return;
    }
    r := RecoverEmpty(disk, decode, stem, m);
  }

  /** A segment whose metadata says that nothing was ever durable. */
  method RecoverEmpty(disk: StreamDirectory, decode: Decoder, stem: string, m: Meta)
    returns (r: Result<Action, RecoveryError>)
    requires Checked(stem, m) && EmptyRecord(m) && !Taken(disk.tree, m.finalizedDir)
    requires disk.Settled() && IncompleteName(stem) in disk.tree.dirs && MetaName(stem) in disk.tree.metas
    modifies disk
    ensures forall now :: now in disk.possible ==> SourceReached(decode, old(disk.tree), stem, m, now)
    ensures disk.tree in disk.possible && (r.Ok? ==> disk.Settled())
    ensures r.Ok? && r.value != Failed ==> (disk.tree, r.value) == RecoverSource(decode, old(disk.tree), stem, m)
    ensures old(disk.Reliable()) ==> disk.Reliable() && r.Ok? && (disk.tree, r.value) == RecoverSource(decode, old(disk.tree), stem, m)
  {
    hide Checked, RecoverCleared, ClearedReached, EmptyRecord, Cleared;
    var cleared := ClearActivity(disk, stem);
    if !cleared {
      return Err(Io);
    }
    r := RecoverEmptyDirectory(disk, decode, stem, m);
  }

  method RecoverEmptyDirectory(disk: StreamDirectory, decode: Decoder, stem: string, m: Meta)
    returns (r: Result<Action, RecoveryError>)
    requires Checked(stem, m)
    requires disk.Settled() && IncompleteName(stem) in disk.tree.dirs && MetaName(stem) in disk.tree.metas
    modifies disk
    ensures forall now :: now in disk.possible ==> ClearedReached(decode, old(disk.tree), stem, m, now)
    ensures disk.tree in disk.possible && (r.Ok? ==> disk.Settled())
    ensures r.Ok? && r.value != Failed ==> (disk.tree, r.value) == RecoverCleared(decode, old(disk.tree), stem, m)
    ensures old(disk.Reliable()) ==> disk.Reliable() && r.Ok? && (disk.tree, r.value) == RecoverCleared(decode, old(disk.tree), stem, m)
  {
    hide Checked, Finish, Finishing, Quarantine, Quarantining, ActivityFile, Emptying;
    ghost var t := disk.tree;
    var dir := disk.tree.dirs[IncompleteName(stem)];
    if OtherActivity(stem, dir) {
      r := FinishSource(disk, decode, stem, m);
      return;
    }
    if !AllEmpty(dir) {
      var ok := MoveAside(disk, stem);
      return if ok then Ok(Quarantined) else Err(Io);
    }
    var removed := RemoveEmptyFiles(disk, stem);
    if !removed {
      return Err(Io);
    }
    r := RemoveSegment(disk, stem, t, dir);
  }

  method RemoveSegment(disk: StreamDirectory, stem: string, ghost t: Tree, ghost dir: Dir)
    returns (r: Result<Action, RecoveryError>)
    requires disk.tree in disk.possible && forall now :: now in disk.possible ==> Emptying(t, stem, dir, now)
    requires disk.tree == WithDir(t, IncompleteName(stem), map[])
    modifies disk
    ensures forall now :: now in disk.possible ==> EmptyGoing(t, stem, dir, now)
    ensures disk.tree in disk.possible && (r.Ok? ==> disk.Settled())
    ensures r.Ok? ==> r.value == Removed
    ensures r.Ok? ==> disk.tree == WithoutMeta(WithoutDir(t, IncompleteName(stem)), MetaName(stem))
    ensures old(disk.Reliable()) ==> disk.Reliable() && r.Ok?
  {
    hide Emptying, IncompleteName, MetaName;
    ghost var before := disk.possible;
    EmptiedThenGone(t, stem, dir, before);
    var ok := disk.Change(DirGone(IncompleteName(stem)));
    assert forall now :: now in disk.possible ==> Emptying(t, stem, dir, now) || now == WithoutDir(t, IncompleteName(stem));
    if ok {
      ok := disk.Change(MetaGone(MetaName(stem)));
    }
    if ok {
      ok := disk.Sync();
    }
    return if ok then Ok(Removed) else Err(Io);
  }

  lemma EmptiedThenGone(t: Tree, stem: string, dir: Dir, trees: set<Tree>)
    requires forall now :: now in trees ==> Emptying(t, stem, dir, now)
    ensures forall now :: now in trees ==> WithoutDir(now, IncompleteName(stem)) == WithoutDir(t, IncompleteName(stem))
  {
    forall now | now in trees
      ensures WithoutDir(now, IncompleteName(stem)) == WithoutDir(t, IncompleteName(stem))
    {
      var names :| now == WithDir(t, IncompleteName(stem), dir - names);
      assert t.dirs[IncompleteName(stem) := dir - names] - {IncompleteName(stem)} == t.dirs - {IncompleteName(stem)};
    }
  }

  /** Empties the activity file that nothing vouches for. */
  method ClearActivity(disk: StreamDirectory, stem: string) returns (ok: bool)
    requires disk.Settled() && IncompleteName(stem) in disk.tree.dirs
    modifies disk
    ensures forall now :: now in disk.possible ==> now == old(disk.tree) || now == Cleared(old(disk.tree), stem)
    ensures disk.tree in disk.possible
    ensures ok ==> disk.Settled() && disk.tree == Cleared(old(disk.tree), stem)
    ensures IncompleteName(stem) in disk.tree.dirs && disk.tree.metas == old(disk.tree).metas
    ensures old(disk.Reliable()) ==> ok && disk.Reliable()
  {
    var source, name := IncompleteName(stem), ActivityName(stem);
    var dir := disk.tree.dirs[source];
    if name !in dir || dir[name] == [] {
      assert dir == WithoutActivity(stem, dir);
      assert disk.tree.dirs[source := dir] == disk.tree.dirs;
      return true;
    }
    ok := disk.Change(FileSet(source, name, []));
    if ok {
      ok := disk.Sync();
    }
    if ok {
      ok := disk.Sync();
    }
  }

  method RemoveEmptyFiles(disk: StreamDirectory, stem: string) returns (ok: bool)
    requires disk.Settled() && IncompleteName(stem) in disk.tree.dirs && AllEmpty(disk.tree.dirs[IncompleteName(stem)])
    modifies disk
    ensures var t := old(disk.tree);
      forall now :: now in disk.possible ==> Emptying(t, stem, t.dirs[IncompleteName(stem)], now)
    ensures disk.tree in disk.possible
    ensures ok ==> disk.tree == WithDir(old(disk.tree), IncompleteName(stem), map[])
    ensures old(disk.Reliable()) ==> ok && disk.Reliable()
  {
    hide IncompleteName;
    ghost var t, dir := disk.tree, disk.tree.dirs[IncompleteName(stem)];
    var validated := disk.tree.dirs[IncompleteName(stem)].Keys;
    NoneGone(t, stem);
    hide Emptying;
    ok := true;
    ghost var gone: set<string> := {};
    while validated != {} && ok
      invariant forall now :: now in disk.possible ==> Emptying(t, stem, dir, now)
      invariant disk.tree in disk.possible && disk.tree == WithDir(t, IncompleteName(stem), dir - gone)
      invariant ok ==> validated + gone == dir.Keys
      invariant old(disk.Reliable()) ==> ok && disk.Reliable()
      decreases validated
    {
      var name :| name in validated;
      OneMoreGone(t, stem, dir, disk.possible, name);
      GoneTwice(t, IncompleteName(stem), dir, gone, name);
      ok := disk.Change(FileGone(IncompleteName(stem), name));
      gone := if ok then gone + {name} else gone;
      validated := validated - {name};
    }
    assert ok ==> dir - gone == map[];
  }

  lemma GoneTwice(t: Tree, source: string, dir: Dir, gone: set<string>, name: string)
    ensures Apply(WithDir(t, source, dir - gone), FileGone(source, name)) == WithDir(t, source, dir - (gone + {name}))
  {
    assert dir - gone - {name} == dir - (gone + {name});
    assert t.dirs[source := dir - gone][source := dir - gone - {name}] == t.dirs[source := dir - (gone + {name})];
  }

  lemma NoneGone(t: Tree, stem: string)
    requires IncompleteName(stem) in t.dirs
    ensures Emptying(t, stem, t.dirs[IncompleteName(stem)], t)
    ensures t == WithDir(t, IncompleteName(stem), t.dirs[IncompleteName(stem)] - {})
  {
    var dir := t.dirs[IncompleteName(stem)];
    assert dir - {} == dir;
    assert t.dirs[IncompleteName(stem) := dir] == t.dirs;
    assert t == WithDir(t, IncompleteName(stem), dir - {});
  }

  lemma OneMoreGone(t: Tree, stem: string, dir: Dir, trees: set<Tree>, name: string)
    requires forall now :: now in trees ==> Emptying(t, stem, dir, now)
    ensures forall now :: now in trees ==> Emptying(t, stem, dir, Apply(now, FileGone(IncompleteName(stem), name)))
  {
    forall now | now in trees
      ensures Emptying(t, stem, dir, Apply(now, FileGone(IncompleteName(stem), name)))
    {
      var names :| now == WithDir(t, IncompleteName(stem), dir - names);
      GoneTwice(t, IncompleteName(stem), dir, names, name);
    }
  }
}
