/** What startup recovery does with an interrupted segment, as a function of the stream directory. */
module Recovery {
  import opened Prelude
  import opened Jsonl
  import opened Storage
  import opened Records
  import opened SegmentLog
  import Names
  import Text

  /** A metadata file either decodes or it does not. */
  datatype MetaFile = Torn | Record(meta: Meta)

  /** A stream directory: segment directories, metadata files, and the time zone recorded for each segment. */
  datatype Tree = Tree(dirs: map<string, Dir>, metas: map<string, MetaFile>, zones: map<string, CaptureTime>)

  datatype Action = FinalizedExactly | RepairedThenFinalized | Retained | Quarantined | Removed | Failed

  // ---------- Metadata ----------

  predicate SessionConsistent(m: Meta, k: string, s: Session) {
    && s.session == k && FileOf(k, s.filename)
    && (s.durableOffset > 0 <==> s.lastFrameId > 0)
    && s.lastFrameId <= m.lastFrameId
  }

  predicate FilenamesDiffer(m: Meta) {
    forall k, l :: k in m.sessions && l in m.sessions && m.sessions[k].filename == m.sessions[l].filename ==> k == l
  }

  predicate MetaConsistent(m: Meta, stem: string) {
    && m.schemaVersion == SCHEMA_VERSION && TimeName(stem)
    && m.incompleteDir == IncompleteName(stem)
    && m.finalizedDir == FinalizedName(stem, m.elapsedNanos / NANOS)
    && m.hasFrames == (m.frameCount > 0) && m.frameCount == m.lastFrameId
    && (m.lifecycle == Creating ==> m.frameCount == 0 && m.activityOffset == 0 && m.sessions == map[])
    && (forall k :: k in m.sessions ==> SessionConsistent(m, k, m.sessions[k]))
    && FilenamesDiffer(m)
  }

  // ---------- Files ----------

  const ACTIVITY_SUFFIX := "_desktop_activity.jsonl"

  /** The desktop activity of this segment, with or without a writer id in its name. */
  predicate ActivityFile(name: string, stem: string) {
    && Names.Derive(name) == Ok(name)
    && (name == ActivityName(stem) ||
        (&& |name| > |stem| + 1 + |ACTIVITY_SUFFIX|
         && stem + "_" <= name && name[|name| - |ACTIVITY_SUFFIX|..] == ACTIVITY_SUFFIX))
  }

  predicate KnownFiles(stem: string, dir: Dir, m: Meta) {
    forall n :: n in dir ==> n in Filenames(m) || ActivityFile(n, stem)
  }

  function Cut(b: Bytes, n: nat): Bytes {
    if n <= |b| then b[..n] else b
  }

  /** What the recorded part of one session's file parses to. */
  function Committed(decode: Decoder, dir: Dir, s: Session): Parsed {
    Parse(decode, Cut(Content(dir, s.filename), s.durableOffset))
  }

  /** Present, long enough, parsing to its end unless torn, and nothing but a torn line after it. */
  predicate SessionGood(decode: Decoder, dir: Dir, s: Session) {
    var p := Committed(decode, dir, s);
    && s.filename in dir && |dir[s.filename]| >= s.durableOffset
    && (p.torn || (p.offset == s.durableOffset && LastId(p.ids) == s.lastFrameId))
    && NEWLINE !in dir[s.filename][s.durableOffset..]
  }

  predicate SessionsGood(decode: Decoder, dir: Dir, m: Meta) {
    forall k :: k in m.sessions ==> SessionGood(decode, dir, m.sessions[k])
  }

  function CommittedIds(decode: Decoder, dir: Dir, m: Meta): Ids {
    map k | k in m.sessions :: Committed(decode, dir, m.sessions[k]).ids
  }

  /** Just past the last line feed. */
  function LastLineEnd(b: Bytes): (n: nat)
    ensures n <= |b| && EndsLine(b[..n]) && NEWLINE !in b[n..]
    ensures EndsLine(b) ==> n == |b|
  {
    if EndsLine(b) then
      assert b[..|b|] == b;
      |b|
    else
      var shorter := b[..|b| - 1];
      var n := LastLineEnd(shorter);
      assert shorter[..n] == b[..n];
      assert b[n..] == shorter[n..] + [b[|b| - 1]];
      n
  }

  predicate ActivityGood(stem: string, dir: Dir, m: Meta) {
    |Content(dir, ActivityName(stem))| >= m.activityOffset
  }

  function ActivityEnd(stem: string, dir: Dir, m: Meta): nat {
    LastLineEnd(Cut(Content(dir, ActivityName(stem)), m.activityOffset))
  }

  // ---------- Repairs ----------

  /** The lengths a session's file is set to, in order. */
  function SessionCuts(decode: Decoder, dir: Dir, s: Session): seq<nat> {
    var p := Committed(decode, dir, s);
    (if p.torn then [p.offset] else [])
    + (if |Content(dir, s.filename)| > s.durableOffset then [s.durableOffset] else [])
  }

  function ActivityCuts(stem: string, dir: Dir, m: Meta): seq<nat> {
    var end := ActivityEnd(stem, dir, m);
    if end != m.activityOffset || |Content(dir, ActivityName(stem))| > m.activityOffset then [end] else []
  }

  ghost function Cuts(decode: Decoder, stem: string, dir: Dir, m: Meta, name: string): seq<nat> {
    if name == ActivityName(stem) then ActivityCuts(stem, dir, m)
    else if k: string :| k in m.sessions && m.sessions[k].filename == name then SessionCuts(decode, dir, m.sessions[k])
    else []
  }

  /** Setting the length of a file again and again: shorter cuts, longer pads with zeros. */
  function CutAll(b: Bytes, cuts: seq<nat>): Bytes {
    if cuts == [] then b else Resize(CutAll(b, cuts[..|cuts| - 1]), cuts[|cuts| - 1])
  }

  ghost function Repaired(decode: Decoder, stem: string, dir: Dir, m: Meta): Dir {
    map n | n in dir :: CutAll(dir[n], Cuts(decode, stem, dir, m, n))
  }

  /** Some of the cuts made, none skipped within a file. */
  ghost predicate PartlyRepaired(decode: Decoder, stem: string, dir: Dir, m: Meta, now: Dir) {
    && now.Keys == dir.Keys
    && forall n :: n in dir ==> PartlyCut(dir[n], Cuts(decode, stem, dir, m, n), now[n])
  }

  ghost predicate PartlyCut(b: Bytes, cuts: seq<nat>, now: Bytes) {
    exists j: nat :: j <= |cuts| && now == CutAll(b, cuts[..j])
  }

  // ---------- Validation ----------

  /** Every file passes, and the committed ids of all sessions are 1..n. */
  ghost predicate FilesGood(decode: Decoder, stem: string, dir: Dir, m: Meta, n: nat) {
    && KnownFiles(stem, dir, m)
    && SessionsGood(decode, dir, m)
    && ActivityGood(stem, dir, m)
    && Partition(CommittedIds(decode, dir, m), n)
  }

  predicate NeedsRepair(decode: Decoder, stem: string, dir: Dir, m: Meta) {
    ActivityCuts(stem, dir, m) != [] || exists k :: k in m.sessions && SessionCuts(decode, dir, m.sessions[k]) != []
  }

  /** The files agree with the metadata, or can be made to. */
  ghost predicate Valid(decode: Decoder, stem: string, dir: Dir, m: Meta, n: nat) {
    && FilesGood(decode, stem, dir, m, n)
    && (NeedsRepair(decode, stem, dir, m) || (m.frameCount == n && m.lastFrameId == n))
  }

  /** The metadata after the repairs. */
  function Updated(decode: Decoder, stem: string, dir: Dir, m: Meta, n: nat): Meta {
    if !NeedsRepair(decode, stem, dir, m) then m
    else
      m.(frameCount := n, lastFrameId := n, hasFrames := n > 0, activityOffset := ActivityEnd(stem, dir, m),
         sessions := map k | k in m.sessions :: UpdatedSession(decode, dir, m.sessions[k]))
  }

  function UpdatedSession(decode: Decoder, dir: Dir, s: Session): Session {
    var p := Committed(decode, dir, s);
    s.(durableOffset := p.offset, lastFrameId := LastId(p.ids))
  }

  lemma PartitionAtMost(ids: Ids, a: nat, b: nat)
    requires Partition(ids, a) && Partition(ids, b)
    ensures a <= b
  {
    if a >= 1 {
      assert Present(ids, a);
      var k, i: nat :| IdAt(ids, k, i, a);
    }
  }

  lemma PartitionIsUnique(ids: Ids, a: nat, b: nat)
    requires Partition(ids, a) && Partition(ids, b)
    ensures a == b
  {
    PartitionAtMost(ids, a, b);
    PartitionAtMost(ids, b, a);
  }

  // ---------- The stream directory ----------

  predicate Taken(t: Tree, name: string) { name in t.dirs || name in t.metas }

  function WithDir(t: Tree, name: string, dir: Dir): Tree { t.(dirs := t.dirs[name := dir]) }

  function WithoutDir(t: Tree, name: string): Tree { t.(dirs := t.dirs - {name}) }

  function WithoutMeta(t: Tree, name: string): Tree { t.(metas := t.metas - {name}) }

  function WithRecord(t: Tree, name: string, m: Meta): Tree { t.(metas := t.metas[name := Record(m)]) }

  function WithZone(t: Tree, m: Meta): Tree { t.(zones := t.zones[m.finalizedDir := m.captureTime]) }

  function DirRenamed(t: Tree, from: string, to: string): Tree {
    if from in t.dirs then t.(dirs := (t.dirs - {from})[to := t.dirs[from]]) else t
  }

  function MetaRenamed(t: Tree, from: string, to: string): Tree {
    if from in t.metas then t.(metas := (t.metas - {from})[to := t.metas[from]]) else t
  }

  // ---------- Quarantine ----------

  function FailedName(stem: string, n: nat): string {
    stem + (if n == 0 then "" else "." + Text.Decimal(n)) + ".failed"
  }

  function FailedMeta(stem: string, n: nat): string { FailedName(stem, n) + ".meta" }

  predicate Free(t: Tree, stem: string, n: nat) {
    !Taken(t, FailedName(stem, n)) && !Taken(t, FailedMeta(stem, n))
  }

  predicate FirstFree(t: Tree, stem: string, n: nat) {
    Free(t, stem, n) && forall j: nat :: j < n ==> !Free(t, stem, j)
  }

  function DirAside(t: Tree, stem: string, n: nat): Tree {
    DirRenamed(t, IncompleteName(stem), FailedName(stem, n))
  }

  function BothAside(t: Tree, stem: string, n: nat): Tree {
    MetaRenamed(DirAside(t, stem, n), MetaName(stem), FailedMeta(stem, n))
  }

  lemma FailedNamesDiffer(stem: string, a: nat, b: nat)
    ensures FailedName(stem, a) != FailedMeta(stem, b)
    ensures FailedName(stem, a) == FailedName(stem, b) ==> a == b
    ensures FailedMeta(stem, a) == FailedMeta(stem, b) ==> a == b
  {
    var x, y := FailedName(stem, a), FailedName(stem, b);
    assert x[|x| - 1] == 'd' && (y + ".meta")[|y| + 4] == 'a';
    if FailedMeta(stem, a) == FailedMeta(stem, b) {
      assert FailedMeta(stem, a)[..|FailedMeta(stem, a)| - 5] == x;
      assert FailedMeta(stem, b)[..|FailedMeta(stem, b)| - 5] == y;
    }
    if x == y {
      FailedNameInjective(stem, a, b);
    }
  }

  lemma FailedNameInjective(stem: string, a: nat, b: nat)
    requires FailedName(stem, a) == FailedName(stem, b)
    ensures a == b
  {
    var x, y := FailedName(stem, a), FailedName(stem, b);
    var middleA := if a == 0 then "" else "." + Text.Decimal(a);
    var middleB := if b == 0 then "" else "." + Text.Decimal(b);
    assert x[|stem|..|x| - 7] == middleA;
    assert y[|stem|..|y| - 7] == middleB;
    if a != 0 && b != 0 {
      assert middleA[1..] == Text.Decimal(a) && middleB[1..] == Text.Decimal(b);
      Text.NumeralDecimal(a);
      Text.NumeralDecimal(b);
    }
  }

  /** Names not yet passed over by the search for a free number. */
  ghost predicate Ahead(t: Tree, stem: string, n: nat, left: set<string>) {
    forall j: nat :: j >= n ==>
      && (Taken(t, FailedName(stem, j)) ==> FailedName(stem, j) in left)
      && (Taken(t, FailedMeta(stem, j)) ==> FailedMeta(stem, j) in left)
  }

  lemma AheadOfNext(t: Tree, stem: string, n: nat, left: set<string>)
    requires Ahead(t, stem, n, left) && !Free(t, stem, n)
    ensures Ahead(t, stem, n + 1, left - {FailedName(stem, n), FailedMeta(stem, n)})
    ensures left - {FailedName(stem, n), FailedMeta(stem, n)} < left
  {
    forall j: nat | j >= n + 1
      ensures FailedName(stem, j) !in {FailedName(stem, n), FailedMeta(stem, n)}
      ensures FailedMeta(stem, j) !in {FailedName(stem, n), FailedMeta(stem, n)}
    {
      FailedNamesDiffer(stem, j, n);
      FailedNamesDiffer(stem, n, j);
    }
  }

  lemma {:induction false} SomeNumberIsFree(t: Tree, stem: string, n: nat, left: set<string>)
    requires Ahead(t, stem, n, left) && forall j: nat :: j < n ==> !Free(t, stem, j)
    ensures exists f :: FirstFree(t, stem, f)
    decreases left
  {
    if Free(t, stem, n) {
      assert FirstFree(t, stem, n);
    } else {
      AheadOfNext(t, stem, n, left);
      SomeNumberIsFree(t, stem, n + 1, left - {FailedName(stem, n), FailedMeta(stem, n)});
    }
  }

  /** The first free number: the directory and its metadata move aside under it. */
  ghost function Quarantine(t: Tree, stem: string): Tree {
    SomeNumberIsFree(t, stem, 0, t.dirs.Keys + t.metas.Keys);
    var n :| FirstFree(t, stem, n);
    BothAside(t, stem, n)
  }

  // ---------- Recovery of one candidate ----------

  function WithoutActivity(stem: string, dir: Dir): Dir {
    if ActivityName(stem) in dir then dir[ActivityName(stem) := []] else dir
  }

  predicate OtherActivity(stem: string, dir: Dir) {
    exists n :: n in dir && n != ActivityName(stem) && ActivityFile(n, stem) && dir[n] != []
  }

  predicate AllEmpty(dir: Dir) {
    forall n :: n in dir ==> dir[n] == []
  }

  ghost function Recover(decode: Decoder, t: Tree, stem: string, interval: nat): (Tree, Action) {
    if !TimeName(stem) then (Quarantine(t, stem), Quarantined)
    else if MetaName(stem) !in t.metas then (t, Retained)
    else if t.metas[MetaName(stem)].Torn? || !MetaConsistent(t.metas[MetaName(stem)].meta, stem) then
      (Quarantine(t, stem), Quarantined)
    else
      var m := t.metas[MetaName(stem)].meta;
      if IncompleteName(stem) in t.dirs then RecoverSource(decode, t, stem, RecordLength(m, stem, m.elapsedNanos, interval))
      else RecoverOrphan(decode, t, stem, m)
  }

  /** Metadata whose directory is gone. */
  ghost function RecoverOrphan(decode: Decoder, t: Tree, stem: string, m: Meta): (Tree, Action) {
    if m.lifecycle == Creating || EmptyRecord(m) then (WithoutMeta(t, MetaName(stem)), Removed)
    else if Exact(decode, t, stem, m) then (WithoutMeta(WithZone(t, m), MetaName(stem)), Removed)
    else (t, Retained)
  }

  /** The finalized directory holds exactly what the metadata records. */
  ghost predicate Exact(decode: Decoder, t: Tree, stem: string, m: Meta) {
    && m.finalizedDir in t.dirs
    && !NeedsRepair(decode, stem, t.dirs[m.finalizedDir], m)
    && exists n :: Valid(decode, stem, t.dirs[m.finalizedDir], m, n)
  }

  ghost function RecoverSource(decode: Decoder, t: Tree, stem: string, m: Meta): (Tree, Action)
    requires IncompleteName(stem) in t.dirs
  {
    if Taken(t, m.finalizedDir) then (t, Failed)
    else if !EmptyRecord(m) then Finish(decode, t, stem, m)
    else RecoverCleared(decode, Cleared(t, stem), stem, m)
  }

  /** The activity of a segment that recorded none is cut to nothing. */
  function Cleared(t: Tree, stem: string): Tree
    requires IncompleteName(stem) in t.dirs
  {
    WithDir(t, IncompleteName(stem), WithoutActivity(stem, t.dirs[IncompleteName(stem)]))
  }

  ghost function RecoverCleared(decode: Decoder, t: Tree, stem: string, m: Meta): (Tree, Action)
    requires IncompleteName(stem) in t.dirs
  {
    var dir := t.dirs[IncompleteName(stem)];
    if OtherActivity(stem, dir) then Finish(decode, t, stem, m)
    else if AllEmpty(dir) then (WithoutMeta(WithoutDir(t, IncompleteName(stem)), MetaName(stem)), Removed)
    else (Quarantine(t, stem), Quarantined)
  }

  /** Validates, repairs, records, renames, and drops the metadata. */
  ghost function Finish(decode: Decoder, t: Tree, stem: string, m: Meta): (Tree, Action)
    requires IncompleteName(stem) in t.dirs
  {
    var dir := t.dirs[IncompleteName(stem)];
    if n :| Valid(decode, stem, dir, m, n) then
      var final := Updated(decode, stem, dir, m, n).(lifecycle := Finalizing);
      (Done(t, stem, Repaired(decode, stem, dir, m), final),
       if NeedsRepair(decode, stem, dir, m) then RepairedThenFinalized else FinalizedExactly)
    else (Quarantine(t, stem), Quarantined)
  }

  /** The states of the last steps, once the directory holds `dir`. */
  function Written(t: Tree, stem: string, dir: Dir, final: Meta): Tree {
    WithRecord(WithDir(t, IncompleteName(stem), dir), MetaName(stem), final)
  }

  function RenamedTo(t: Tree, stem: string, dir: Dir, final: Meta): Tree {
    DirRenamed(Written(t, stem, dir, final), IncompleteName(stem), final.finalizedDir)
  }

  function Done(t: Tree, stem: string, dir: Dir, final: Meta): Tree {
    WithoutMeta(WithZone(RenamedTo(t, stem, dir, final), final), MetaName(stem))
  }
}
