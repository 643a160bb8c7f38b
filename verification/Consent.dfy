/**
 * Pairing consent: setup, confirm and sync start, racing over the credential file and the answer file.
 *
 * Setup, confirm and sync start change files under the answer lock, so these sections never
 * interleave; what happens between them does, in any order. A running sync renews the credential
 * without that lock; here a renewal falls between two sections, never inside one. Each disk call
 * inside a section takes its outcome from a script, and a section may be cut off after any of them.
 */
module Consent {
  import opened Prelude

  /** `generation` is the hash of the client certificate; `pinned` the id of the CA the pairing pins, when readable. */
  datatype Credential = Credential(generation: string, hasCertificate: bool, instance: string, pinned: Option<string>)

  datatype CredentialFile = NoCredential | Stored(credential: Credential) | Undecodable

  datatype AnswerFile = NoAnswer | Malformed | Answer(confirmed: string)

  datatype Files = Files(credential: CredentialFile, answer: AnswerFile, unverified: Option<string>)

  datatype Outcome = Works | Refuses | Late | Stops

  // ---------- Reading ----------

  /** The stored id cannot stand without asking the owner. */
  predicate NeedsAsking(f: Files, c: Credential) {
    match c.pinned
    case Some(jid) => jid != c.instance
    case None => f.unverified != Some(c.generation)
  }

  predicate IsConfirmed(f: Files, c: Credential) {
    && c.hasCertificate && !NeedsAsking(f, c)
    && f.answer.Answer? && f.answer.confirmed != "" && f.answer.confirmed == c.generation
  }

  predicate HasConfirmed(f: Files) {
    f.credential.Stored? && IsConfirmed(f, f.credential.credential)
  }

  predicate StillStored(f: Files, shown: Credential) {
    f.credential.Stored? && f.credential.credential.generation == shown.generation
  }

  datatype Decision = Yes | No | WalkedAway

  datatype Kind = Setup | Confirm | Sync

  /** A process between two of its locked sections. */
  datatype Task =
    | SetupSettled
    | SetupAsks(offered: Credential)
    | ConfirmSettled
    | ConfirmAsks(shown: Credential)
    | SyncWaits
    | SyncRuns(credential: Credential)

  datatype Event =
    | Begin(kind: Kind, id: nat)
    | Pair(id: nat, offered: Credential)
    | Look(id: nat)
    | Decide(id: nat, decision: Decision)
    | Poll(id: nat)
    | Renew(id: nat, instance: string)
    | End(id: nat)
    | Restart

  /** Setup and the observer exclude each other through the instance lock. */
  predicate HoldsInstance(t: Task) {
    t.SetupSettled? || t.SetupAsks? || t.SyncWaits? || t.SyncRuns?
  }

  class PrivateState {
    var files: Files
    var tasks: map<nat, Task>
    var script: seq<Outcome>
    var power: bool
    /** Generations the owner said yes to, or gave the matching words for. */
    ghost var consented: set<string>
    /** The generation that was stored before there was any answer file. */
    ghost var legacy: set<string>
    /** The credential file before there was any answer file. */
    ghost var first: CredentialFile
    /** A read of an absent answer file failed for another reason than its absence. */
    ghost var missed: bool

    constructor (files: Files, script: seq<Outcome>)
      ensures this.files == files && this.script == script && tasks == map[] && power
      ensures first == files.credential && !missed
      ensures legacy == LegacyOf(files) && consented == ConsentedBefore(files)
      ensures Valid()
    {
      this.files, this.script := files, script;
      tasks, power, missed := map[], true, false;
      first := files.credential;
      legacy := LegacyOf(files);
      consented := ConsentedBefore(files);
    }

    ghost predicate Allowed(generation: string)
      reads this
    {
      generation in consented || generation in legacy
    }

    /** Unless a read was missed: an answer is for an allowed generation, and before there is one nothing was stored. */
    ghost predicate Valid()
      reads this
    {
      !missed ==>
        && (files.answer.Answer? && files.answer.confirmed != "" ==> Allowed(files.answer.confirmed))
        && (files.answer == NoAnswer ==> files.credential == first)
        && (first.Stored? && first.credential.hasCertificate && files.answer == NoAnswer ==> Allowed(first.credential.generation))
        && forall id :: id in tasks ==> TaskValid(tasks[id])
    }

    ghost predicate TaskValid(t: Task)
      reads this
    {
      match t
      case SyncWaits => true
      case SyncRuns(c) => files.answer != NoAnswer && Allowed(c.generation)
      case _ => files.answer != NoAnswer
    }

    /** The next disk call fails, and the machine goes on. */
    predicate NextFails()
      reads this`script, this`power
    {
      power && script != [] && (script[0] == Refuses || script[0] == Late)
    }

    method Next() returns (outcome: Outcome)
      modifies this`script, this`power
      ensures outcome == if !old(power) then Refuses else if old(script) == [] then Works else old(script)[0]
      ensures script == if old(power) && old(script) != [] then old(script)[1..] else old(script)
      ensures power == (old(power) && (old(script) == [] || old(script)[0] != Stops))
      ensures OnlyStops(old(script)) ==> OnlyStops(script)
    {
      if !power {
        return Refuses;
      }
      if script == [] {
        return Works;
      }
      outcome := script[0];
      script := script[1..];
      if outcome == Stops {
        power := false;
      }
    }

    /** Every disk call works from here on. */
    predicate Reliable()
      reads this`script, this`power
    {
      power && script == []
    }

    // ---------- Locked sections ----------

    method WriteAnswer(confirmed: string) returns (ok: bool)
      modifies this`files, this`script, this`power
      ensures files == old(files) || files == old(files).(answer := Answer(confirmed))
      ensures ok ==> files == old(files).(answer := Answer(confirmed))
      ensures old(Reliable()) ==> ok && Reliable()
      ensures OnlyStops(old(script)) ==> OnlyStops(script)
    {
      var outcome := Next();
      if outcome == Works || outcome == Late {
        files := files.(answer := Answer(confirmed));
      }
      ok := outcome == Works;
    }

    method Persist(c: Credential) returns (ok: bool)
      modifies this`files, this`script, this`power
      ensures files == old(files) || files == old(files).(credential := Stored(c))
      ensures ok ==> files == old(files).(credential := Stored(c))
      ensures old(Reliable()) ==> ok && Reliable()
      ensures OnlyStops(old(script)) ==> OnlyStops(script)
    {
      var outcome := Next();
      if outcome == Works || outcome == Late {
        files := files.(credential := Stored(c));
      }
      ok := outcome == Works;
    }

    /**
     * Before there is an answer file, a stored pairing is taken as confirmed and its absence as
     * settled. An answer file that cannot be read stays as it is. Success leaves an answer file
     * behind exactly when no read of an absent one was missed.
     */
    method GrandfatherOrSettle() returns (ok: bool)
      requires Valid() && power
      modifies this`files, this`script, this`power, this`missed
      ensures Valid()
      ensures old(files).answer != NoAnswer ==> files == old(files) && missed == old(missed)
      ensures ok && old(files).answer == NoAnswer && !old(missed) ==> (files.answer != NoAnswer <==> !missed)
      ensures files.credential == old(files).credential && files.unverified == old(files).unverified
      ensures missed == (old(missed) || (old(files).answer == NoAnswer && old(NextFails())))
      ensures old(NextFails()) ==> ok && files == old(files) && power && script == old(script)[1..]
      ensures old(Reliable()) ==> ok && Reliable() && files.answer == Settled(old(files))
      ensures OnlyStops(old(script)) ==> OnlyStops(script)
    {
      var read := Next();
      if read == Stops {
        return false;
      }
      if read != Works {
        missed := missed || files.answer == NoAnswer;
        return true;
      }
      if files.answer != NoAnswer {
        return true;
      }
      var load := Next();
      if load != Works {
        return false;
      }
      var generation := if files.credential.Stored? && files.credential.credential.hasCertificate
        then files.credential.credential.generation else "";
      ok := WriteAnswer(generation);
    }

    /** Keeps the id the mark came from, or notes that there was no CA to check, then writes the answer. */
    method RecordConfirmation(c: Credential, generation: string) returns (ok: bool)
      requires Valid() && (!missed ==> files.answer != NoAnswer && generation in consented)
      requires files.credential == Stored(c) && c.generation == generation
      modifies this`files, this`script, this`power
      ensures Valid() && (old(files).answer != NoAnswer ==> files.answer != NoAnswer)
      ensures ok ==> files.credential.Stored? && files.credential.credential.generation == generation
      ensures ok && generation != "" ==> (IsConfirmed(files, files.credential.credential) <==> c.hasCertificate)
      ensures old(Reliable()) ==> ok && Reliable() && files == Recorded(old(files), c, generation)
      ensures OnlyStops(old(script)) ==> OnlyStops(script)
    {
      ok := true;
      if c.pinned.Some? && c.pinned.value != c.instance {
        ok := Persist(c.(instance := c.pinned.value));
      } else if c.pinned.None? {
        var outcome := Next();
        if outcome == Works || outcome == Late {
          files := files.(unverified := Some(generation));
        }
        ok := outcome == Works;
      }
      if ok {
        ok := WriteAnswer(generation);
      }
    }

    method DeleteCredential() returns (ok: bool)
      modifies this`files, this`script, this`power
      ensures files == old(files) || files == old(files).(credential := NoCredential)
      ensures ok ==> files.credential == NoCredential
      ensures old(Reliable()) ==> ok && Reliable()
      ensures OnlyStops(old(script)) ==> OnlyStops(script)
    {
      var outcome := Next();
      ok := outcome == Works;
      if ok {
        files := files.(credential := NoCredential);
      }
    }

    // ---------- Steps of the three processes ----------

    /** The first locked section of setup, confirm or sync. Only sync goes on when it fails. */
    method Start(kind: Kind, id: nat)
      requires Valid() && power
      modifies this
      ensures Valid() && consented == old(consented) && legacy == old(legacy) && first == old(first)
      ensures missed == (old(missed) || (old(files).answer == NoAnswer && old(StartMisses(kind, id))))
      ensures old(StartMisses(kind, id)) ==>
        files == old(files) && tasks == old(tasks)[id := FirstTask(kind)] && power && script == old(script)[2..]
      ensures old(files).answer != NoAnswer ==> files == old(files)
      ensures old(Reliable()) ==> Reliable() && (files, tasks) == Ideal(old(files), old(tasks), Begin(kind, id))
      ensures OnlyStops(old(script)) ==> OnlyStops(script)
    {
      if !MayStart(tasks, kind, id) {
        return;
      }
      var lock := Next();
      if lock != Works {
        if kind == Sync {
          tasks := tasks[id := SyncWaits];
        }
        return;
      }
      var ok := GrandfatherOrSettle();
      if kind == Sync || ok {
        tasks := tasks[id := FirstTask(kind)];
      }
    }

    /** The process starts and gets the lock, and its read of the answer file fails. */
    predicate StartMisses(kind: Kind, id: nat)
      reads this`tasks, this`script, this`power
    {
      && power && MayStart(tasks, kind, id)
      && |script| >= 2 && script[0] == Works && (script[1] == Refuses || script[1] == Late)
    }

    /** The owner's answer to setup about the pairing it was offered. */
    method DecideSetup(id: nat, offered: Credential, decision: Decision)
      requires Valid() && id in tasks && tasks[id] == SetupAsks(offered)
      modifies this
      ensures Valid() && legacy == old(legacy) && first == old(first) && missed == old(missed)
      ensures consented == old(consented) + if decision == Yes then {offered.generation} else {}
      ensures decision == No ==> files == old(files)
      ensures decision == WalkedAway ==> files.answer == old(files).answer
      ensures decision == WalkedAway && HasConfirmed(old(files)) && old(Reliable()) ==> files == old(files)
      ensures decision == Yes && old(Reliable()) && offered.hasCertificate && offered.generation != "" ==> HasConfirmed(files)
      ensures old(files).answer != NoAnswer ==> files.answer != NoAnswer
      ensures old(Reliable()) ==> Reliable() && (files, tasks) == Ideal(old(files), old(tasks), Decide(id, decision))
      ensures OnlyStops(old(script)) ==> OnlyStops(script)
    {
      tasks := tasks - {id};
      if decision == No {
        return;
      }
      if decision == Yes {
        consented := consented + {offered.generation};
      }
      var lock := Next();
      if lock != Works {
        return;
      }
      if decision == Yes {
        var persisted := Persist(offered);
        if persisted {
          var recorded := RecordConfirmation(offered, offered.generation);
        }
      } else {
        HoldOffered(offered);
      }
    }

    /** The owner walked away: the offered pairing is held, unless a confirmed one is there. */
    method HoldOffered(offered: Credential)
      modifies this`files, this`script, this`power
      ensures files == old(files) || files == old(files).(credential := Stored(offered))
      ensures old(Reliable()) ==>
        Reliable() && files == if HasConfirmed(old(files)) then old(files) else old(files).(credential := Stored(offered))
      ensures OnlyStops(old(script)) ==> OnlyStops(script)
    {
      var read := Next();
      var kept := read == Works && files.credential.Stored? && IsConfirmed(files, files.credential.credential);
      if !kept {
        var persisted := Persist(offered);
      }
    }

    /** Confirm shows the stored pairing's mark, unless it is already confirmed. */
    method LookAtStored(id: nat)
      requires Valid() && id in tasks && tasks[id] == ConfirmSettled
      modifies this`tasks, this`script, this`power
      ensures Valid()
      ensures old(Reliable()) ==> tasks == if files.credential.Stored? && !HasConfirmed(files)
        then old(tasks)[id := ConfirmAsks(files.credential.credential)] else old(tasks) - {id}
      ensures old(Reliable()) ==> Reliable()
      ensures OnlyStops(old(script)) ==> OnlyStops(script)
    {
      var read := Next();
      if read == Works && files.credential.Stored? && !IsConfirmed(files, files.credential.credential) {
        tasks := tasks[id := ConfirmAsks(files.credential.credential)];
      } else {
        tasks := tasks - {id};
      }
    }

    /** The owner's answer to confirm counts only for the generation that was shown. */
    method DecideConfirm(id: nat, shown: Credential, decision: Decision)
      requires Valid() && id in tasks && tasks[id] == ConfirmAsks(shown)
      modifies this
      ensures Valid() && legacy == old(legacy) && first == old(first) && missed == old(missed)
      ensures consented == old(consented) + if decision == Yes then {shown.generation} else {}
      ensures !StillStored(old(files), shown) ==> files == old(files)
      ensures decision == WalkedAway ==> files == old(files)
      ensures decision == No && old(Reliable()) && StillStored(old(files), shown) ==> files.credential == NoCredential
      ensures decision == Yes && old(Reliable()) && StillStored(old(files), shown) && shown.generation != "" ==>
        (HasConfirmed(files) <==> old(files).credential.credential.hasCertificate)
      ensures old(files).answer != NoAnswer ==> files.answer != NoAnswer
      ensures old(Reliable()) ==> Reliable() && (files, tasks) == Ideal(old(files), old(tasks), Decide(id, decision))
      ensures OnlyStops(old(script)) ==> OnlyStops(script)
    {
      tasks := tasks - {id};
      if decision == WalkedAway {
        return;
      }
      if decision == Yes {
        consented := consented + {shown.generation};
      }
      var lock := Next();
      if lock != Works {
        return;
      }
      var read := Next();
      if read != Works || !files.credential.Stored? || files.credential.credential.generation != shown.generation {
        return;
      }
      if decision == Yes {
        var recorded := RecordConfirmation(files.credential.credential, shown.generation);
      } else {
        var deleted := DeleteCredential();
      }
    }

    /** Sync begins only with a confirmed pairing; its reads take no lock. */
    method PollStored(id: nat)
      requires Valid() && id in tasks && tasks[id] == SyncWaits
      modifies this`tasks, this`script, this`power
      ensures Valid()
      ensures id in tasks && tasks[id].SyncRuns? ==> IsConfirmed(files, tasks[id].credential)
      ensures old(Reliable()) ==> Reliable() && (files, tasks) == Ideal(files, old(tasks), Poll(id))
      ensures OnlyStops(old(script)) ==> OnlyStops(script)
      ensures !missed && id in tasks && tasks[id].SyncRuns? ==> Allowed(tasks[id].credential.generation)
    {
      var read := Next();
      if read == Works && files.credential.Stored? && IsConfirmed(files, files.credential.credential) {
        tasks := tasks[id := SyncRuns(files.credential.credential)];
      }
    }

    method Step(e: Event)
      requires Valid()
      modifies this
      ensures Valid() && legacy == old(legacy)
      ensures consented == old(consented) + (if e.Decide? && old(power) then Said(old(tasks), e.id, e.decision) else {})
      ensures missed == (old(missed) || (e.Begin? && old(files).answer == NoAnswer && old(StartMisses(e.kind, e.id))))
      ensures e.Begin? && old(StartMisses(e.kind, e.id)) ==>
        files == old(files) && tasks == old(tasks)[e.id := FirstTask(e.kind)] && power && script == old(script)[2..]
      ensures !old(power) && e != Restart ==> files == old(files) && tasks == old(tasks)
      ensures old(files).answer != NoAnswer ==> files.answer != NoAnswer
      ensures old(Reliable()) ==> Reliable() && (files, tasks) == Ideal(old(files), old(tasks), e)
      ensures OnlyStops(old(script)) ==> OnlyStops(script)
    {
      if !power && e != Restart {
        return;
      }
      match e {
        case Begin(kind, id) => Start(kind, id);
        case Pair(id, offered) =>
          if id in tasks && tasks[id] == SetupSettled {
            tasks := tasks[id := SetupAsks(offered)];
          }
        case Look(id) =>
          if id in tasks && tasks[id] == ConfirmSettled {
            LookAtStored(id);
          }
        case Decide(id, decision) =>
          if id in tasks && tasks[id].SetupAsks? {
            DecideSetup(id, tasks[id].offered, decision);
          } else if id in tasks && tasks[id].ConfirmAsks? {
            DecideConfirm(id, tasks[id].shown, decision);
          }
        case Poll(id) =>
          if id in tasks && tasks[id] == SyncWaits {
            PollStored(id);
          }
        case Renew(id, instance) =>
          if id in tasks && tasks[id].SyncRuns? {
            var renewed := Persist(tasks[id].credential.(instance := instance));
          }
        case End(id) =>
          tasks := tasks - {id};
        case Restart =>
          power, tasks := true, map[];
      }
    }
  }

  /** No disk call fails while the machine runs. */
  predicate OnlyStops(script: seq<Outcome>) {
    forall i :: 0 <= i < |script| ==> script[i] == Works || script[i] == Stops
  }

  /** Setup and sync need the instance lock. */
  predicate MayStart(tasks: map<nat, Task>, kind: Kind, id: nat) {
    id !in tasks && (kind == Confirm || forall i :: i in tasks ==> !HoldsInstance(tasks[i]))
  }

  /** The files after a yes about this stored pairing. */
  function Recorded(f: Files, c: Credential, generation: string): Files {
    match c.pinned
    case Some(jid) =>
      f.(credential := if jid != c.instance then Stored(c.(instance := jid)) else f.credential, answer := Answer(generation))
    case None => f.(unverified := Some(generation), answer := Answer(generation))
  }

  /** The owner's answer, on a disk that works. */
  function Decided(f: Files, t: Task, decision: Decision): Files {
    match t
    case SetupAsks(offered) =>
      (match decision
       case Yes => Recorded(f.(credential := Stored(offered)), offered, offered.generation)
       case No => f
       case WalkedAway => if HasConfirmed(f) then f else f.(credential := Stored(offered)))
    case ConfirmAsks(shown) =>
      if decision == WalkedAway || !StillStored(f, shown) then f
      else if decision == Yes then Recorded(f, f.credential.credential, shown.generation)
      else f.(credential := NoCredential)
    case _ => f
  }

  /** What an event does on a disk that works. */
  function Ideal(f: Files, tasks: map<nat, Task>, e: Event): (Files, map<nat, Task>) {
    match e
    case Begin(kind, id) =>
      if MayStart(tasks, kind, id) then (f.(answer := Settled(f)), tasks[id := FirstTask(kind)]) else (f, tasks)
    case Pair(id, offered) =>
      (f, if id in tasks && tasks[id] == SetupSettled then tasks[id := SetupAsks(offered)] else tasks)
    case Look(id) =>
      (f, if id !in tasks || tasks[id] != ConfirmSettled then tasks
          else if f.credential.Stored? && !HasConfirmed(f) then tasks[id := ConfirmAsks(f.credential.credential)]
          else tasks - {id})
    case Decide(id, decision) =>
      if id in tasks && (tasks[id].SetupAsks? || tasks[id].ConfirmAsks?) then (Decided(f, tasks[id], decision), tasks - {id})
      else (f, tasks)
    case Poll(id) =>
      (f, if id in tasks && tasks[id] == SyncWaits && HasConfirmed(f) then tasks[id := SyncRuns(f.credential.credential)]
          else tasks)
    case Renew(id, instance) =>
      (if id in tasks && tasks[id].SyncRuns? then f.(credential := Stored(tasks[id].credential.(instance := instance))) else f,
       tasks)
    case End(id) => (f, tasks - {id})
    case Restart => (f, map[])
  }

  function FirstTask(kind: Kind): Task {
    match kind
    case Setup => SetupSettled
    case Confirm => ConfirmSettled
    case Sync => SyncWaits
  }

  /** The answer file after the first start. */
  function Settled(f: Files): AnswerFile {
    if f.answer != NoAnswer then f.answer
    else if f.credential.Stored? && f.credential.credential.hasCertificate then Answer(f.credential.credential.generation)
    else Answer("")
  }

  /** The generation this answer says yes to. */
  function Said(tasks: map<nat, Task>, id: nat, decision: Decision): set<string> {
    if decision == Yes && id in tasks && tasks[id].SetupAsks? then {tasks[id].offered.generation}
    else if decision == Yes && id in tasks && tasks[id].ConfirmAsks? then {tasks[id].shown.generation}
    else {}
  }

  function LegacyOf(f: Files): set<string> {
    if f.answer == NoAnswer && f.credential.Stored? then {f.credential.credential.generation} else {}
  }

  /** An answer file that is already there counts as given. */
  function ConsentedBefore(f: Files): set<string> {
    if f.answer.Answer? then {f.answer.confirmed} else {}
  }

  /** Someone says yes. */
  predicate SaysYes(events: seq<Event>) {
    exists i :: 0 <= i < |events| && events[i].Decide? && events[i].decision == Yes
  }

  /**
   * Over every interleaving of setup, confirm and sync, with any failures, stops and restarts: unless a
   * read of an absent answer file was missed, a pairing reads as confirmed, and sync runs with
   * it, only when the owner said yes to that very generation or it was stored before there was
   * any answer file. No read is missed when disk calls fail only because the machine stops, and
   * without a yes nobody consented to anything new.
   */
  method Race(files: Files, script: seq<Outcome>, events: seq<Event>) returns (state: PrivateState)
    ensures fresh(state) && state.legacy == LegacyOf(files)
    ensures !state.missed ==> forall c :: IsConfirmed(state.files, c) ==> state.Allowed(c.generation)
    ensures !state.missed ==> forall id :: id in state.tasks && state.tasks[id].SyncRuns? ==>
      state.Allowed(state.tasks[id].credential.generation)
    ensures OnlyStops(script) || files.answer != NoAnswer ==> !state.missed
    ensures !SaysYes(events) ==> state.consented == ConsentedBefore(files)
  {
    state := new PrivateState(files, script);
    for i := 0 to |events|
      invariant fresh(state) && state.Valid() && state.legacy == LegacyOf(files)
      invariant OnlyStops(script) ==> OnlyStops(state.script) && !state.missed
      invariant files.answer != NoAnswer ==> state.files.answer != NoAnswer && !state.missed
      invariant !SaysYes(events) ==> state.consented == ConsentedBefore(files)
    {
      state.Step(events[i]);
    }
  }

  /**
   * What a missed read costs: setup takes the failing read for a settled answer, the owner walks
   * away, and the next start takes the held pairing for one that was there all along.
   */
  method HeldPairingIsGrandfathered(c: Credential) returns (state: PrivateState)
    requires c.hasCertificate && c.pinned == Some(c.instance) && c.generation != ""
    ensures fresh(state) && state.missed
    ensures IsConfirmed(state.files, c) && c.generation !in state.consented && c.generation !in state.legacy
  {
    state := new PrivateState(Files(NoCredential, NoAnswer, None), [Works, Refuses]);
    state.Step(Begin(Setup, 0));
    state.Step(Pair(0, c));
    state.Step(Decide(0, WalkedAway));
    state.Step(Begin(Confirm, 1));
  }
}
