/** What segment metadata says about the bytes of a segment. */
module Records {
  import opened Prelude
  import opened Jsonl
  import opened Storage
  import Names
  import Text

  const SCHEMA_VERSION := 1
  const NANOS := 1_000_000_000
  const U64_MAX := 0xFFFF_FFFF_FFFF_FFFF

  /** The contents of a directory, by file name. */
  type Dir = map<string, Bytes>

  function IncompleteName(stem: string): string { stem + ".incomplete" }

  function MetaName(stem: string): string { stem + ".incomplete.meta" }

  function ActivityName(stem: string): string { stem + "_desktop_activity.jsonl" }

  /** `{stem}_{seconds:03}` */
  function FinalizedName(stem: string, seconds: nat): string {
    stem + "_" + Text.Padded(seconds, 3)
  }

  /** Whole seconds, never below one and never above the segment interval. */
  function SegmentLength(elapsedNanos: nat, intervalNanos: nat): nat {
    var seconds, most := elapsedNanos / NANOS, intervalNanos / NANOS;
    var ceiling := if most < 1 then 1 else most;
    if seconds < 1 then 1 else if seconds > ceiling then ceiling else seconds
  }

  function DurationNanos(seconds: nat): nat {
    if seconds * NANOS <= U64_MAX then seconds * NANOS else U64_MAX
  }

  /** Records the bounded length and the finalized name that follows from it. */
  function RecordLength(m: Meta, stem: string, elapsedNanos: nat, intervalNanos: nat): Meta {
    var length := SegmentLength(elapsedNanos, intervalNanos);
    m.(elapsedNanos := DurationNanos(length), finalizedDir := FinalizedName(stem, length))
  }

  lemma DurationReadsBack(seconds: nat)
    ensures DurationNanos(seconds) / NANOS == if seconds <= U64_MAX / NANOS then seconds else U64_MAX / NANOS
  {
    assert seconds * NANOS / NANOS == seconds;
  }

  /** The recorded name agrees with the recorded nanoseconds exactly when the length fits 64 bits. */
  lemma LengthConsistentExactlyWhenItFits(m: Meta, stem: string, elapsedNanos: nat, intervalNanos: nat)
    ensures var r := RecordLength(m, stem, elapsedNanos, intervalNanos);
      r.finalizedDir == FinalizedName(stem, r.elapsedNanos / NANOS)
      <==> SegmentLength(elapsedNanos, intervalNanos) <= U64_MAX / NANOS
  {
    var length := SegmentLength(elapsedNanos, intervalNanos);
    DurationReadsBack(length);
    hide DurationNanos, SegmentLength, FinalizedName;
    if length > U64_MAX / NANOS {
      var clamped := U64_MAX / NANOS;
      if FinalizedName(stem, length) == FinalizedName(stem, clamped) {
        FinalizedNameInjective(stem, length, clamped);
      }
    }
  }

  lemma FinalizedNameInjective(stem: string, a: nat, b: nat)
    requires FinalizedName(stem, a) == FinalizedName(stem, b)
    ensures a == b
  {
    assert FinalizedName(stem, a)[|stem| + 1..] == Text.Padded(a, 3);
    assert FinalizedName(stem, b)[|stem| + 1..] == Text.Padded(b, 3);
    Text.PaddedInjective(a, b, 3);
  }

  /** Bounding a bounded length changes nothing. */
  lemma RecordLengthIdempotent(m: Meta, stem: string, elapsedNanos: nat, intervalNanos: nat)
    requires SegmentLength(elapsedNanos, intervalNanos) <= U64_MAX / NANOS
    ensures var r := RecordLength(m, stem, elapsedNanos, intervalNanos);
      RecordLength(r, stem, r.elapsedNanos, intervalNanos) == r
  {
    var length := SegmentLength(elapsedNanos, intervalNanos);
    assert length * NANOS / NANOS == length;
  }

  // ---------- Frame ids across files ----------

  type Ids = map<string, seq<nat>>

  predicate IdAt(ids: Ids, k: string, i: nat, v: nat) {
    k in ids && i < |ids[k]| && ids[k][i] == v
  }

  ghost predicate InRange(ids: Ids, n: nat) {
    forall k, i: nat, v: nat :: IdAt(ids, k, i, v) ==> 1 <= v <= n
  }

  ghost predicate Present(ids: Ids, v: nat) {
    exists k, i: nat :: IdAt(ids, k, i, v)
  }

  ghost predicate Covers(ids: Ids, n: nat) {
    forall v: nat :: 1 <= v <= n ==> Present(ids, v)
  }

  ghost predicate Disjoint(ids: Ids) {
    forall k, i: nat, l, j: nat, v: nat :: IdAt(ids, k, i, v) && IdAt(ids, l, j, v) ==> k == l && i == j
  }

  /** The ids of all session files together are exactly 1..n, each once. */
  ghost predicate Partition(ids: Ids, n: nat) {
    InRange(ids, n) && Covers(ids, n) && Disjoint(ids)
  }

  lemma PartitionInRange(ids: Ids, n: nat)
    requires Partition(ids, n)
    ensures InRange(ids, n)
  {
  }

  lemma PartitionAppend(ids: Ids, n: nat, k: string)
    requires Partition(ids, n)
    ensures Partition(ids[k := (if k in ids then ids[k] else []) + [n + 1]], n + 1)
  {
    var old' := if k in ids then ids[k] else [];
    var after := ids[k := old' + [n + 1]];
    forall l, i: nat, v: nat | IdAt(after, l, i, v)
      ensures IdAt(ids, l, i, v) || (l == k && i == |old'| && v == n + 1)
    {
    }
    forall v: nat | 1 <= v <= n + 1
      ensures Present(after, v)
    {
      if v == n + 1 {
        assert IdAt(after, k, |old'|, v);
      } else {
        assert Present(ids, v);
        var l, i: nat :| IdAt(ids, l, i, v);
        assert IdAt(after, l, i, v);
      }
    }
  }

  // ---------- Metadata that describes a log ----------

  predicate EmptyRecord(m: Meta) {
    && m.frameCount == 0 && m.lastFrameId == 0 && !m.hasFrames && m.activityOffset == 0
    && forall k :: k in m.sessions ==> m.sessions[k].durableOffset == 0
  }

  /** Two metadata values that record the same bytes; only lifecycle and length may differ. */
  predicate SameRecord(a: Meta, b: Meta) {
    a == b.(lifecycle := a.lifecycle, finalizedDir := a.finalizedDir, elapsedNanos := a.elapsedNanos)
  }

  function Content(dir: Dir, name: string): Bytes {
    if name in dir then dir[name] else []
  }

  function Filenames(m: Meta): set<string> {
    set k | k in m.sessions :: m.sessions[k].filename
  }

  /** `f` is the file name derived from the session name. */
  predicate FileOf(session: string, f: string) {
    Names.Derive(session).Ok? && f == Names.SessionFilename(Names.Derive(session).value)
  }

  /** The committed content of one session file is whole and ends with the recorded id. */
  predicate SessionRecorded(decode: Decoder, k: string, s: Session, log: Dir) {
    && s.session == k
    && FileOf(k, s.filename)
    && s.filename in log && |log[s.filename]| == s.durableOffset
    && Whole(decode, log[s.filename])
    && Parse(decode, log[s.filename]).ids != []
    && LastId(Parse(decode, log[s.filename]).ids) == s.lastFrameId
  }

  predicate ActivityMeasured(stem: string, m: Meta, log: Dir) {
    |Content(log, ActivityName(stem))| == m.activityOffset
  }

  /** The activity file consists of whole lines. */
  predicate LineWise(stem: string, log: Dir) {
    EndsLine(Content(log, ActivityName(stem)))
  }

  predicate ActivityRecorded(stem: string, m: Meta, log: Dir) {
    ActivityMeasured(stem, m, log) && LineWise(stem, log)
  }

  function IdsOf(decode: Decoder, m: Meta, log: Dir): Ids {
    map k | k in m.sessions :: Parse(decode, Content(log, m.sessions[k].filename)).ids
  }

  predicate SessionsRecorded(decode: Decoder, m: Meta, log: Dir) {
    forall k :: k in m.sessions ==> SessionRecorded(decode, k, m.sessions[k], log)
  }

  /** The log has no file that `m` does not record. */
  predicate NothingElse(stem: string, m: Meta, log: Dir) {
    log.Keys == Filenames(m) + (if m.activityOffset > 0 then {ActivityName(stem)} else {})
  }

  predicate CountsAgree(m: Meta) {
    && m.lastFrameId == m.frameCount && m.hasFrames == (m.frameCount > 0)
    && (m.lifecycle == Creating ==> m.sessions == map[] && m.activityOffset == 0)
  }

  /** `log` holds exactly the bytes `m` records, and the frame ids are 1..n. */
  ghost predicate Registered(decode: Decoder, stem: string, m: Meta, log: Dir) {
    && m.schemaVersion == SCHEMA_VERSION && m.incompleteDir == IncompleteName(stem)
    && SessionsRecorded(decode, m, log)
    && ActivityMeasured(stem, m, log)
    && NothingElse(stem, m, log)
    && Partition(IdsOf(decode, m, log), m.frameCount)
    && CountsAgree(m)
  }

  /** Registered, and the activity consists of whole lines: all that recovery relies on. */
  ghost predicate Recorded(decode: Decoder, stem: string, m: Meta, log: Dir) {
    && m.schemaVersion == SCHEMA_VERSION && m.incompleteDir == IncompleteName(stem)
    && SessionsRecorded(decode, m, log)
    && ActivityRecorded(stem, m, log)
    && NothingElse(stem, m, log)
    && Partition(IdsOf(decode, m, log), m.frameCount)
    && CountsAgree(m)
  }

  lemma RecordedIsRegistered(decode: Decoder, stem: string, m: Meta, log: Dir)
    ensures Recorded(decode, stem, m, log) <==> Registered(decode, stem, m, log) && LineWise(stem, log)
  {
    hide SessionsRecorded, NothingElse, Partition, IdsOf, CountsAgree, ActivityMeasured, LineWise;
  }
}
