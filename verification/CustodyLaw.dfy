/**
 * What may happen to captured files, as laws over a log of events.
 *
 * The captures, the ledger and the pairing at any moment are what the log so far makes of them;
 * the law says which event may come next. A file leaves the captures only by an event that says
 * so, and an unlink is lawful only for bytes that the journal, as paired at that moment, has
 * acknowledged.
 */
module CustodyLaw {
  import opened Prelude
  import opened Receipt
  import opened Removal

  datatype Candidate = Candidate(day: string, stream: string, segment: string)

  datatype Answer = Uploaded(result: UploadResult) | SegmentRemoved | Kept | Ended

  /**
   * `answers` are the journal's, in the order of the uploads; `delayed` are the segments whose
   * next attempt still lies ahead.
   */
  datatype Op =
    | LocalFinish
    | Sweep(answers: seq<Answer>, delayed: set<Candidate>)
    | Outside(captures: map<Candidate, Folder>)
    | RePair(identity: Identity)
    | Restart
    | CloseFence

  datatype Event =
    | Ran(op: Op)
    | Answered(candidate: Candidate, identity: Identity, answer: Answer, files: seq<LocalFile>)
    | AckStored(candidate: Candidate, ack: Ack)
    | AckDropped(candidate: Candidate)
    /** The hook before file `index` of the removal with this number. */
    | Interfered(candidate: Candidate, number: nat, index: nat)
    | Unlinked(candidate: Candidate, name: string, bytes: Bytes)
    | Restored(candidate: Candidate, folder: Folder)
    | DirectoryRemoved(candidate: Candidate)

  type History = seq<Event>

  /** What a run is given: the digest, what outside programs do at each hook, and the first pairing. */
  datatype Scene = Scene(digest: Bytes -> string, hook: (nat, nat, Folder) -> Folder, first: Identity)

  /** The last removal, its next hook, and whether that hook ran since the last unlink. */
  datatype Turn = Turn(removal: nat, next: nat, looked: bool)

  datatype World = World(captures: map<Candidate, Folder>, ledger: map<Candidate, Ack>, identity: Identity, accepting: bool,
                         pending: seq<Answer>, turn: Turn, ops: seq<Op>)

  /** The segment name is where the acknowledgement lies. */
  function Location(c: Candidate): string { c.day + "/" + c.stream + "/" + c.segment + "/ack.json" }

  // ---------- Replay ----------

  /** Directories whose names all lead to an inode. */
  function SoundOnly(captures: map<Candidate, Folder>): map<Candidate, Folder> {
    map c | c in captures && Removal.Sound(captures[c]) :: captures[c]
  }

  function AfterOp(w: World, op: Op): World {
    match op
    case LocalFinish => w.(pending := [])
    case Sweep(answers, _) => w.(pending := answers)
    case Outside(captures) => w.(captures := SoundOnly(captures), pending := [])
    case RePair(identity) => w.(identity := identity, pending := [])
    case Restart => w.(accepting := true, pending := [])
    case CloseFence => w.(accepting := false, pending := [])
  }

  function AfterHook(scene: Scene, w: World, c: Candidate, number: nat, index: nat): World
    requires c in w.captures
  {
    var f := w.captures[c];
    w.(captures := w.captures[c := Disturbed(f, scene.hook(number, index, f))], turn := Turn(number, index + 1, true))
  }

  function AfterUnlink(w: World, c: Candidate, name: string): World
    requires c in w.captures
  {
    var f := w.captures[c];
    w.(captures := w.captures[c := f.(entries := f.entries - {name})], turn := w.turn.(looked := false))
  }

  function After(scene: Scene, w: World, e: Event): World {
    match e
    case Ran(op) => AfterOp(w, op).(ops := w.ops + [op])
    case Answered(_, _, _, _) => w.(pending := if w.pending == [] then [] else w.pending[1..])
    case AckStored(c, ack) => w.(ledger := w.ledger[c := ack])
    case AckDropped(c) => w.(ledger := w.ledger - {c})
    case Interfered(c, number, index) => if c in w.captures then AfterHook(scene, w, c, number, index) else w
    case Unlinked(c, name, _) => if c in w.captures then AfterUnlink(w, c, name) else w
    case Restored(c, folder) => w.(captures := w.captures[c := folder])
    case DirectoryRemoved(c) => w.(captures := w.captures - {c})
  }

  function Beginning(scene: Scene): World {
    World(map[], map[], scene.first, true, [], Turn(0, 0, false), [])
  }

  /** What the log makes of captures, ledger and pairing. */
  function Replay(scene: Scene, h: History): World {
    if h == [] then Beginning(scene) else After(scene, Replay(scene, h[..|h| - 1]), h[|h| - 1])
  }

  // ---------- The law ----------

  /** The answer speaks for exactly these files: a valid receipt, or a segment the journal removed itself. */
  ghost predicate Justifies(answer: Answer, files: seq<LocalFile>, acknowledged: seq<Descriptor>) {
    match answer
    case Uploaded(result) => Confirms(result, files, acknowledged)
    case SegmentRemoved => acknowledged == AllWritten(files)
    case _ => false
  }

  ghost predicate JustifiedBy(e: Event, c: Candidate, identity: Identity, acknowledged: seq<Descriptor>) {
    e.Answered? && e.candidate == c && e.identity == identity && Justifies(e.answer, e.files, acknowledged)
  }

  /** This journal gave an answer that justifies the acknowledgement. */
  ghost predicate Justified(h: History, c: Candidate, identity: Identity, acknowledged: seq<Descriptor>) {
    exists e :: e in h && JustifiedBy(e, c, identity, acknowledged)
  }

  predicate HasDigest(acknowledged: seq<Descriptor>, name: string, sha256: string) {
    exists i :: 0 <= i < |acknowledged| && acknowledged[i].submitted == name && acknowledged[i].sha256 == sha256
  }

  /** The stored acknowledgement is the paired journal's and lists this name with this digest. */
  predicate AckLists(w: World, c: Candidate, name: string, sha256: string) {
    c in w.ledger && w.ledger[c].identity == w.identity && HasDigest(w.ledger[c].files, name, sha256)
  }

  predicate LiesAt(f: Folder, name: string, bytes: Bytes) {
    name in f.entries && f.entries[name] in f.inodes && f.inodes[f.entries[name]].bytes == bytes
  }

  predicate Lies(captures: map<Candidate, Folder>, c: Candidate, name: string, bytes: Bytes) {
    c in captures && LiesAt(captures[c], name, bytes)
  }

  ghost predicate StillThere(now: Folder, name: string, inode: nat) {
    UnderName(now, name, inode) || exists j: nat :: UnderName(now, ConflictName(j), inode)
  }

  /** Every file keeps its content and its name, or is found under a conflict name. */
  ghost predicate KeepsFiles(before: Folder, now: Folder) {
    Removal.Sound(now) && InodesKept(before, now) && forall n :: n in before.entries ==> StillThere(now, n, before.entries[n])
  }

  predicate NextHook(turn: Turn, number: nat, index: nat) {
    if index == 0 then turn.removal < number else turn.removal == number && turn.next == index && !turn.looked
  }

  ghost predicate Allowed(scene: Scene, h: History, e: Event) {
    var w := Replay(scene, h);
    match e
    case Ran(op) => true
    case Answered(c, identity, answer, files) => w.pending != [] && answer == w.pending[0] && identity == w.identity
    case AckStored(c, ack) => Justified(h, c, w.identity, ack.files) && ack == WriteAck(Location(c), w.identity, ack.files)
    case AckDropped(c) => true
    case Interfered(c, number, index) => w.accepting && c in w.captures && NextHook(w.turn, number, index)
    case Unlinked(c, name, bytes) =>
      w.accepting && w.turn.looked && Lies(w.captures, c, name, bytes) && AckLists(w, c, name, scene.digest(bytes))
    case Restored(c, folder) => c in w.captures && KeepsFiles(w.captures[c], folder)
    case DirectoryRemoved(c) => w.accepting && c in w.captures && w.captures[c].entries == map[]
  }

  ghost predicate Lawful(scene: Scene, h: History) {
    h == [] || (Lawful(scene, h[..|h| - 1]) && Allowed(scene, h[..|h| - 1], h[|h| - 1]))
  }

  predicate Grown(before: History, now: History) {
    |before| <= |now| && now[..|before|] == before
  }

  lemma Extend(scene: Scene, h: History, e: Event)
    requires Lawful(scene, h) && Allowed(scene, h, e)
    ensures Lawful(scene, h + [e]) && Grown(h, h + [e])
    ensures Replay(scene, h + [e]) == After(scene, Replay(scene, h), e)
  {
    hide Allowed, After;
    assert (h + [e])[..|h|] == h;
  }

  lemma {:induction false} LawfulBefore(scene: Scene, h: History, i: nat)
    requires Lawful(scene, h) && i <= |h|
    ensures Lawful(scene, h[..i])
    decreases |h|
  {
    hide Allowed;
    if i == |h| {
      assert h[..i] == h;
    } else {
      LawfulBefore(scene, h[..|h| - 1], i);
      assert h[..|h| - 1][..i] == h[..i];
    }
  }

  lemma {:induction false} ReplayStaysSound(scene: Scene, h: History)
    requires Lawful(scene, h)
    ensures forall c :: c in Replay(scene, h).captures ==> Removal.Sound(Replay(scene, h).captures[c])
  {
    if h != [] {
      ReplayStaysSound(scene, h[..|h| - 1]);
      AfterStaysSound(scene, h[..|h| - 1], h[|h| - 1]);
    }
  }

  lemma AfterStaysSound(scene: Scene, h: History, e: Event)
    requires Allowed(scene, h, e)
    requires forall c :: c in Replay(scene, h).captures ==> Removal.Sound(Replay(scene, h).captures[c])
    ensures var w := After(scene, Replay(scene, h), e); forall c :: c in w.captures ==> Removal.Sound(w.captures[c])
  {
    hide Replay;
  }

  // ---------- Every unlink is confirmed ----------

  /** Every stored acknowledgement was written because of an answer of the journal it names. */
  ghost predicate LedgerJustified(ledger: map<Candidate, Ack>, h: History) {
    forall c :: c in ledger ==> Justified(h, c, ledger[c].identity, ledger[c].files)
  }

  lemma {:induction false} LedgerIsJustified(scene: Scene, h: History)
    requires Lawful(scene, h)
    ensures LedgerJustified(Replay(scene, h).ledger, h)
  {
    hide Justifies;
    if h != [] {
      var init, e := h[..|h| - 1], h[|h| - 1];
      LedgerIsJustified(scene, init);
      forall c | c in Replay(scene, h).ledger
        ensures Justified(h, c, Replay(scene, h).ledger[c].identity, Replay(scene, h).ledger[c].files)
      {
        var ack := Replay(scene, h).ledger[c];
        LedgerGrowsByAnswers(scene, init, e, c);
        var a :| a in init && JustifiedBy(a, c, ack.identity, ack.files);
        assert a in h;
      }
    }
  }

  lemma LedgerGrowsByAnswers(scene: Scene, h: History, e: Event, c: Candidate)
    requires Allowed(scene, h, e) && LedgerJustified(Replay(scene, h).ledger, h)
    requires c in After(scene, Replay(scene, h), e).ledger
    ensures var ack := After(scene, Replay(scene, h), e).ledger[c]; Justified(h, c, ack.identity, ack.files)
  {
    hide Replay, Justified;
  }

  /**
   * The unlinked bytes lay under that name, and hash to what the journal paired at that moment
   * had acknowledged for it; the fence was open.
   */
  ghost predicate UnlinkConfirmed(scene: Scene, h: History, i: nat)
    requires i < |h| && h[i].Unlinked?
  {
    var w, c := Replay(scene, h[..i]), h[i].candidate;
    && w.accepting && Lies(w.captures, c, h[i].name, h[i].bytes)
    && exists acknowledged ::
         Justified(h[..i], c, w.identity, acknowledged) && HasDigest(acknowledged, h[i].name, scene.digest(h[i].bytes))
  }

  lemma UnlinksAreConfirmed(scene: Scene, h: History)
    requires Lawful(scene, h)
    ensures forall i: nat :: i < |h| && h[i].Unlinked? ==> UnlinkConfirmed(scene, h, i)
  {
    forall i: nat | i < |h| && h[i].Unlinked?
      ensures UnlinkConfirmed(scene, h, i)
    {
      hide Replay, Justified, HasDigest;
      LawfulBefore(scene, h, i + 1);
      assert h[..i + 1][..i] == h[..i];
      LedgerIsJustified(scene, h[..i]);
      var ack := Replay(scene, h[..i]).ledger[h[i].candidate];
      assert Justified(h[..i], h[i].candidate, ack.identity, ack.files);
    }
  }

  // ---------- No captured bytes are lost ----------

  predicate Holds(f: Folder, bytes: Bytes) {
    exists n :: n in f.entries && LiesAt(f, n, bytes)
  }

  predicate HoldsFor(captures: map<Candidate, Folder>, c: Candidate, bytes: Bytes) {
    c in captures && Holds(captures[c], bytes)
  }

  /** Whatever else outside programs do at the hooks, they leave these bytes in the directory. */
  ghost predicate HookSpares(hook: (nat, nat, Folder) -> Folder, bytes: Bytes) {
    forall number: nat, index: nat, f: Folder ::
      Removal.Sound(f) && Holds(f, bytes) ==> Holds(Disturbed(f, hook(number, index, f)), bytes)
  }

  /** Nor do they take these bytes between operations. */
  predicate Spares(e: Event, c: Candidate, bytes: Bytes) {
    e.Ran? && e.op.Outside? ==> HoldsFor(SoundOnly(e.op.captures), c, bytes)
  }

  predicate UnlinkOf(e: Event, c: Candidate, bytes: Bytes) {
    e.Unlinked? && e.candidate == c && e.bytes == bytes
  }

  lemma BytesStay(scene: Scene, h: History, e: Event, c: Candidate, bytes: Bytes)
    requires Lawful(scene, h) && Allowed(scene, h, e) && HoldsFor(Replay(scene, h).captures, c, bytes)
    requires HookSpares(scene.hook, bytes) && Spares(e, c, bytes)
    ensures HoldsFor(After(scene, Replay(scene, h), e).captures, c, bytes) || UnlinkOf(e, c, bytes)
  {
    ReplayStaysSound(scene, h);
    hide Replay, Justified, Lawful;
    var w := Replay(scene, h);
    var f := w.captures[c];
    var n :| n in f.entries && LiesAt(f, n, bytes);
    match e {
      case Interfered(d, number, index) =>
        assert Removal.Sound(f) && Holds(f, bytes);
      case Unlinked(d, name, gone) =>
        if d == c && name != n {
          assert LiesAt(f.(entries := f.entries - {name}), n, bytes);
        }
      case Restored(d, folder) =>
        if d == c {
          RestoredHolds(f, folder, n, bytes);
        }
      case _ =>
    }
  }

  lemma RestoredHolds(f: Folder, now: Folder, n: string, bytes: Bytes)
    requires KeepsFiles(f, now) && LiesAt(f, n, bytes)
    ensures Holds(now, bytes)
  {
    if UnderName(now, n, f.entries[n]) {
      assert LiesAt(now, n, bytes);
    } else {
      var j: nat :| UnderName(now, ConflictName(j), f.entries[n]);
      assert LiesAt(now, ConflictName(j), bytes);
    }
  }

  ghost predicate WasUnlinked(h: History, start: nat, c: Candidate, bytes: Bytes) {
    exists i: nat :: start <= i < |h| && UnlinkOf(h[i], c, bytes)
  }

  /**
   * Bytes captured in a segment are still in its directory, unless they were unlinked (and then
   * confirmed) or an outside program took them.
   */
  lemma {:induction false} NoBytesAreLost(scene: Scene, h: History, start: nat, c: Candidate, bytes: Bytes)
    requires Lawful(scene, h) && start <= |h| && HoldsFor(Replay(scene, h[..start]).captures, c, bytes)
    requires HookSpares(scene.hook, bytes) && forall i :: start <= i < |h| ==> Spares(h[i], c, bytes)
    ensures HoldsFor(Replay(scene, h).captures, c, bytes) || WasUnlinked(h, start, c, bytes)
    decreases |h|
  {
    hide Allowed, HookSpares, Spares, HoldsFor, UnlinkOf, After;
    if start == |h| {
      assert h[..start] == h;
    } else {
      var init := h[..|h| - 1];
      assert init[..start] == h[..start];
      NoBytesAreLost(scene, init, start, c, bytes);
      if WasUnlinked(init, start, c, bytes) {
        var i: nat :| start <= i < |init| && UnlinkOf(init[i], c, bytes);
        assert UnlinkOf(h[i], c, bytes);
      } else {
        BytesStay(scene, init, h[|h| - 1], c, bytes);
      }
    }
  }

  /** The journal acknowledged these bytes for this segment. */
  ghost predicate Acknowledged(scene: Scene, h: History, c: Candidate, bytes: Bytes) {
    exists identity, acknowledged, name ::
      Justified(h, c, identity, acknowledged) && HasDigest(acknowledged, name, scene.digest(bytes))
  }

  lemma UnlinkedWasAcknowledged(scene: Scene, h: History, i: nat)
    requires i < |h| && h[i].Unlinked? && UnlinkConfirmed(scene, h, i)
    ensures Acknowledged(scene, h, h[i].candidate, h[i].bytes)
  {
    hide Lies, HasDigest, Replay, Justifies;
    var c, identity := h[i].candidate, Replay(scene, h[..i]).identity;
    var acknowledged :| Justified(h[..i], c, identity, acknowledged)
      && HasDigest(acknowledged, h[i].name, scene.digest(h[i].bytes));
    var a :| a in h[..i] && JustifiedBy(a, c, identity, acknowledged);
    assert a in h;
    assert Justified(h, c, identity, acknowledged);
  }

  /** Captured bytes are on disk until the journal has acknowledged them. */
  lemma OnDiskUntilAcknowledged(scene: Scene, h: History, start: nat, c: Candidate, bytes: Bytes)
    requires Lawful(scene, h) && start <= |h| && HoldsFor(Replay(scene, h[..start]).captures, c, bytes)
    requires HookSpares(scene.hook, bytes) && forall i :: start <= i < |h| ==> Spares(h[i], c, bytes)
    ensures HoldsFor(Replay(scene, h).captures, c, bytes) || Acknowledged(scene, h, c, bytes)
  {
    hide Lawful, HoldsFor, HookSpares, Spares, Replay, UnlinkConfirmed, Acknowledged;
    NoBytesAreLost(scene, h, start, c, bytes);
    if WasUnlinked(h, start, c, bytes) {
      var i: nat :| start <= i < |h| && UnlinkOf(h[i], c, bytes);
      UnlinksAreConfirmed(scene, h);
      UnlinkedWasAcknowledged(scene, h, i);
    }
  }
}
