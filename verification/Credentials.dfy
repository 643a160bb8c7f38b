/**
 * The credential owner: one chain of publications over a live credential, the credential file
 * and the opener that dials with it.
 *
 * Owner operations run one after the other. While one of them writes, the state lock is free:
 * attempts are captured, the session is shut down and the opener retired meanwhile.
 */
module Credentials {
  import opened Prelude

  datatype Credential = Credential(
    relay: Option<string>, token: Option<string>, expires: Option<int>,
    certificate: string, endpoints: seq<string>, instance: string)

  /** A write reports success, or fails before or after the file was replaced. */
  datatype Write = Succeeds | FailsBefore | FailsAfter

  datatype Attempt = Attempt(
    pairing: string, lane: nat, owner: nat, revision: nat, relay: Option<string>, token: Option<string>)

  /** The opener dials through a transport, or not at all. */
  datatype Mode = Transport(credential: Credential, revision: nat) | Disabled(credential: Credential, revision: nat)

  datatype State = State(
    live: Credential, generation: nat, pending: Option<nat>, clearPending: Option<nat>,
    shutdown: bool, currentAttempt: nat, nextAttempt: nat,
    disk: Credential, retired: bool, mode: Mode)

  /** What can happen while the state lock is free. */
  datatype Elsewhere = Capture | Invalidate | Retire

  datatype Op =
    | Refresh(lease: nat, token: string, expires: int, write: Write, during: seq<Elsewhere>)
    | Ready(attempt: Attempt, expired: bool, relay: string, token: string, expires: int,
            transport: bool, write: Write, readBack: bool, during: seq<Elsewhere>)
    | Dial(endpoints: seq<string>, transport: bool, write: Write, readBack: bool, during: seq<Elsewhere>)
    | Disable(attempt: Attempt, expired: bool, transport: bool, write: Write, before: seq<Elsewhere>, during: seq<Elsewhere>)
    | PersistPending(write: Write, during: seq<Elsewhere>)
    | Between(event: Elsewhere)

  /** What stays the same for one store: its pairing, how a certificate determines one, and the endpoint merge. */
  datatype Setting = Setting(
    pairing: string, generationOf: string -> string, merge: (seq<string>, seq<string>) -> seq<string>)

  // ---------- The specification ----------

  function Happen(s: State, event: Elsewhere): State {
    match event
    case Capture => s.(nextAttempt := s.nextAttempt + 1, currentAttempt := s.nextAttempt + 1)
    case Invalidate => s.(shutdown := true)
    case Retire => s.(retired := true)
  }

  function Meanwhile(s: State, events: seq<Elsewhere>): State {
    if events == [] then s else Happen(Meanwhile(s, events[..|events| - 1]), events[|events| - 1])
  }

  predicate Current(g: Setting, s: State, a: Attempt, expired: bool) {
    && !expired && a.pairing == g.pairing && a.lane != 0 && s.currentAttempt == a.owner && !s.shutdown
    && s.generation == a.revision && s.live.relay == a.relay && s.live.token == a.token
  }

  function Persisted(disk: Credential, c: Credential, write: Write): Credential {
    if write == FailsBefore then disk else c
  }

  /** The fields the read-back compares. */
  predicate SameAccess(a: Credential, b: Credential) {
    && a.relay == b.relay && a.token == b.token && a.expires == b.expires
    && a.certificate == b.certificate && a.endpoints == b.endpoints
  }

  function Installed(s: State, mode: Mode): State {
    if s.retired then s else s.(mode := mode)
  }

  function Proposed(g: Setting, s: State, op: Op): Credential {
    match op
    case Refresh(_, token, expires, _, _) => s.live.(token := Some(token), expires := Some(expires))
    case Ready(_, _, relay, token, expires, _, _, _, _) =>
      s.live.(relay := Some(relay), token := Some(token), expires := Some(expires))
    case Dial(endpoints, _, _, _, _) => s.live.(endpoints := g.merge(endpoints, s.live.endpoints))
    case Disable(_, _, _, _, _, _) => s.live.(relay := None, token := None, expires := None)
    case _ => s.live
  }

  /** The operation gets past its checks and writes. */
  predicate Accepted(g: Setting, s: State, op: Op) {
    match op
    case Refresh(lease, _, _, _, _) => !s.shutdown && s.generation == lease
    case Ready(attempt, expired, _, _, _, transport, _, _, _) => Current(g, s, attempt, expired) && transport
    case Dial(endpoints, transport, _, _, _) =>
      && !s.shutdown && g.generationOf(s.live.certificate) == g.pairing
      && g.merge(endpoints, s.live.endpoints) != [] && g.merge(endpoints, s.live.endpoints) != s.live.endpoints && transport
    case Disable(attempt, expired, _, _, _, _) => Current(g, s, attempt, expired)
    case PersistPending(_, _) => s.pending == Some(s.generation) || s.clearPending == Some(s.generation)
    case Between(_) => true
  }

  /** A publication counts when the write reported success, or reading it back shows it. */
  predicate Published(s: State, c: Credential, write: Write, readBack: bool) {
    write == Succeeds || (readBack && SameAccess(Persisted(s.disk, c, write), c))
  }

  function Step(g: Setting, s: State, op: Op): State {
    var c := Proposed(g, s, op);
    match op
    case Refresh(lease, _, _, write, during) =>
      if !Accepted(g, s, op) then s
      else
        var written := Meanwhile(s.(live := c, pending := Some(lease), disk := Persisted(s.disk, c, write)), during);
        if write == Succeeds then written.(pending := None) else written
    case Ready(_, _, _, _, _, _, write, readBack, during) =>
      if !Accepted(g, s, op) then s
      else
        var written := Meanwhile(s.(disk := Persisted(s.disk, c, write)), during);
        if !Published(s, c, write, readBack) then written
        else
          Installed(written.(live := c, generation := s.generation + 1, clearPending := None,
                             pending := if write == Succeeds then None else Some(s.generation + 1)),
                    Transport(c, s.generation + 1))
    case Dial(_, _, write, readBack, during) =>
      if !Accepted(g, s, op) then s
      else
        var written := Meanwhile(s.(disk := Persisted(s.disk, c, write)), during);
        if !Published(s, c, write, readBack) then written
        else Installed(written.(live := c), Transport(c, s.generation))
    case Disable(_, _, transport, write, before, during) =>
      if !Accepted(g, s, op) then s
      else
        var n := s.generation + 1;
        var disabled := Meanwhile(s.(live := c, pending := None, generation := n, clearPending := Some(n)), before);
        var closed := Installed(disabled, Mode.Disabled(c, n));
        if c.endpoints != [] && !transport then closed
        else
          var direct := if c.endpoints != [] then Installed(closed, Transport(c, n)) else closed;
          var written := Meanwhile(direct.(disk := Persisted(direct.disk, c, write)), during);
          if write == Succeeds then written.(clearPending := None) else written
    case PersistPending(write, during) =>
      if !Accepted(g, s, op) then s
      else
        var written := Meanwhile(s.(disk := Persisted(s.disk, c, write)), during);
        if write == Succeeds then written.(pending := None, clearPending := None) else written
    case Between(event) => Happen(s, event)
  }

  function Run(g: Setting, s: State, ops: seq<Op>): State {
    if ops == [] then s else Step(g, Run(g, s, ops[..|ops| - 1]), ops[|ops| - 1])
  }

  function Fresh(c: Credential): State {
    State(c, 0, None, None, false, 0, 0, c, false, Transport(c, 0))
  }

  // ---------- What every state keeps ----------

  function Relay(s: State): Option<string> { s.mode.credential.relay }

  /**
   * Pending work carries the current generation, the opener follows the store unless it was
   * retired, and the fields no publication changes agree with the file.
   */
  predicate Consistent(s: State) {
    && (s.pending.Some? ==> s.pending.value == s.generation)
    && (s.clearPending.Some? ==> s.clearPending.value == s.generation)
    && (!s.retired ==> s.mode.credential.relay == s.live.relay && s.mode.revision == s.generation)
    && s.disk.certificate == s.live.certificate && s.disk.instance == s.live.instance
  }

  /** With nothing pending, the file holds the live credential. */
  predicate Agreed(s: State) {
    s.pending == None && s.clearPending == None ==> s.disk == s.live
  }

  /** Events elsewhere touch the attempts, the shutdown flag and the retirement only. */
  lemma {:induction false} MeanwhileTouches(s: State, events: seq<Elsewhere>)
    ensures var t := Meanwhile(s, events);
      && t == s.(shutdown := t.shutdown, retired := t.retired, currentAttempt := t.currentAttempt, nextAttempt := t.nextAttempt)
      && (s.retired ==> t.retired) && (s.shutdown ==> t.shutdown) && s.nextAttempt <= t.nextAttempt
  {
    if events != [] {
      MeanwhileTouches(s, events[..|events| - 1]);
    }
  }

  lemma StepKeepsConsistent(g: Setting, s: State, op: Op)
    requires Consistent(s)
    ensures Consistent(Step(g, s, op))
  {
    hide Consistent, Step;
    match op {
      case Refresh(lease, _, _, write, during) => RefreshKeepsConsistent(g, s, op);
      case Ready(_, _, _, _, _, _, write, _, during) => ReadyKeepsConsistent(g, s, op);
      case Dial(_, _, write, _, during) => DialKeepsConsistent(g, s, op);
      case Disable(_, _, _, _, _, _) => DisableKeepsConsistent(g, s, op);
      case PersistPending(write, during) => PersistKeepsConsistent(g, s, op);
      case Between(event) => BetweenKeepsConsistent(g, s, op);
    }
  }

  lemma RefreshKeepsConsistent(g: Setting, s: State, op: Op)
    requires Consistent(s) && op.Refresh?
    ensures Consistent(Step(g, s, op))
  {
    var c := Proposed(g, s, op);
    MeanwhileTouches(s.(live := c, pending := Some(op.lease), disk := Persisted(s.disk, c, op.write)), op.during);
  }

  lemma ReadyKeepsConsistent(g: Setting, s: State, op: Op)
    requires Consistent(s) && op.Ready?
    ensures Consistent(Step(g, s, op))
  {
    MeanwhileTouches(s.(disk := Persisted(s.disk, Proposed(g, s, op), op.write)), op.during);
  }

  lemma DialKeepsConsistent(g: Setting, s: State, op: Op)
    requires Consistent(s) && op.Dial?
    ensures Consistent(Step(g, s, op))
  {
    MeanwhileTouches(s.(disk := Persisted(s.disk, Proposed(g, s, op), op.write)), op.during);
  }

  lemma PersistKeepsConsistent(g: Setting, s: State, op: Op)
    requires Consistent(s) && op.PersistPending?
    ensures Consistent(Step(g, s, op))
  {
    MeanwhileTouches(s.(disk := Persisted(s.disk, s.live, op.write)), op.during);
  }

  lemma BetweenKeepsConsistent(g: Setting, s: State, op: Op)
    requires Consistent(s) && op.Between?
    ensures Consistent(Step(g, s, op))
  {
  }

  lemma DisableKeepsConsistent(g: Setting, s: State, op: Op)
    requires Consistent(s) && op.Disable?
    ensures Consistent(Step(g, s, op))
  {
    if Accepted(g, s, op) {
      DisableResult(g, s, op);
    }
  }

  /** An accepted disable: the relay is gone from store and opener, and the clear is pending unless it was written. */
  lemma DisableResult(g: Setting, s: State, op: Op)
    requires op.Disable? && Accepted(g, s, op)
    ensures var t := Step(g, s, op);
      var c := s.live.(relay := None, token := None, expires := None);
      && t.live == c && t.generation == s.generation + 1 && t.pending == None
      && t.clearPending in {None, Some(t.generation)}
      && (t.clearPending == None ==> t.disk == c)
      && (t.disk == s.disk || t.disk == c)
      && (!t.retired ==> t.mode.credential == c && t.mode.revision == t.generation)
  {
    var c := Proposed(g, s, op);
    var n := s.generation + 1;
    var first := s.(live := c, pending := None, generation := n, clearPending := Some(n));
    MeanwhileTouches(first, op.before);
    var closed := Installed(Meanwhile(first, op.before), Mode.Disabled(c, n));
    var direct := if c.endpoints != [] then Installed(closed, Transport(c, n)) else closed;
    MeanwhileTouches(direct.(disk := Persisted(direct.disk, c, op.write)), op.during);
  }

  /**
   * The one way the file and the live credential part with nothing pending: a publication's
   * write took effect but failed, reading it back failed too, and nothing was pending before.
   */
  predicate LostWrite(g: Setting, s: State, op: Op) {
    && (op.Ready? || op.Dial?) && Accepted(g, s, op)
    && op.write == FailsAfter && !op.readBack
    && s.pending == None && s.clearPending == None && Proposed(g, s, op) != s.live
  }

  /** From agreement, an operation leads to agreement exactly when it does not lose a write. */
  lemma StepKeepsAgreementExactlyUnlessLost(g: Setting, s: State, op: Op)
    requires Consistent(s) && Agreed(s)
    ensures Agreed(Step(g, s, op)) <==> !LostWrite(g, s, op)
  {
    if Accepted(g, s, op) {
      match op {
        case Refresh(lease, _, _, write, during) =>
          var c := Proposed(g, s, op);
          MeanwhileTouches(s.(live := c, pending := Some(lease), disk := Persisted(s.disk, c, write)), during);
        case Ready(_, _, _, _, _, _, write, _, during) =>
          MeanwhileTouches(s.(disk := Persisted(s.disk, Proposed(g, s, op), write)), during);
        case Dial(_, _, write, _, during) =>
          MeanwhileTouches(s.(disk := Persisted(s.disk, Proposed(g, s, op), write)), during);
        case Disable(_, _, _, _, _, _) =>
          DisableResult(g, s, op);
        case PersistPending(write, during) =>
          MeanwhileTouches(s.(disk := Persisted(s.disk, s.live, write)), during);
        case Between(event) =>
      }
    }
  }

  /** No operation of the run loses a write. */
  predicate NoneLost(g: Setting, s: State, ops: seq<Op>) {
    ops == [] || (NoneLost(g, s, ops[..|ops| - 1]) && !LostWrite(g, Run(g, s, ops[..|ops| - 1]), ops[|ops| - 1]))
  }

  /** Every reachable state is consistent, and without lost writes the file and the live credential agree. */
  lemma {:induction false} ReachableStates(g: Setting, c: Credential, ops: seq<Op>)
    ensures Consistent(Run(g, Fresh(c), ops))
    ensures NoneLost(g, Fresh(c), ops) ==> Agreed(Run(g, Fresh(c), ops))
  {
    if ops != [] {
      var before := ops[..|ops| - 1];
      ReachableStates(g, c, before);
      var s := Run(g, Fresh(c), before);
      StepKeepsConsistent(g, s, ops[|ops| - 1]);
      if Agreed(s) {
        StepKeepsAgreementExactlyUnlessLost(g, s, ops[|ops| - 1]);
      }
    }
  }

  /** A concrete lost write: the endpoints reach the file and nothing remembers that they did. */
  lemma LostWriteParts(c: Credential)
    requires c.endpoints == []
    ensures var g := Setting("p", x => "p", (a, b) => a);
      var s := Run(g, Fresh(c), [Dial(["e"], true, FailsAfter, false, [])]);
      s.disk != s.live && s.pending == None && s.clearPending == None
  {
    var g := Setting("p", x => "p", (a, b) => a);
    var op := Dial(["e"], true, FailsAfter, false, []);
    assert [op][..0] == [];
    assert Run(g, Fresh(c), [op]) == Step(g, Fresh(c), op);
  }

  /** Persisting reports success. */
  predicate PersistOk(g: Setting, s: State, op: Op)
    requires op.PersistPending?
  {
    !Accepted(g, s, op) || op.write == Succeeds
  }

  /** When persisting reports success in a reachable state, the file holds the live credential. */
  lemma PersistedMeansAgreed(g: Setting, c: Credential, ops: seq<Op>, op: Op)
    requires NoneLost(g, Fresh(c), ops) && op.PersistPending? && PersistOk(g, Run(g, Fresh(c), ops), op)
    ensures var s := Step(g, Run(g, Fresh(c), ops), op);
      s.disk == s.live && s.pending == None && s.clearPending == None
  {
    ReachableStates(g, c, ops);
    var s := Run(g, Fresh(c), ops);
    MeanwhileTouches(s.(disk := Persisted(s.disk, s.live, op.write)), op.during);
  }

  // ---------- Generations ----------

  lemma GenerationsGrow(g: Setting, s: State, op: Op)
    ensures Step(g, s, op).generation >= s.generation
    ensures (op.Ready? || op.Disable?) && Step(g, s, op).generation == s.generation ==> Step(g, s, op).live == s.live
    ensures Step(g, s, op).live.relay != s.live.relay ==>
      Accepted(g, s, op) && (op.Disable? || (op.Ready? && op.attempt.revision == s.generation))
  {
    match op {
      case Refresh(lease, _, _, write, during) =>
        var c := Proposed(g, s, op);
        MeanwhileTouches(s.(live := c, pending := Some(lease), disk := Persisted(s.disk, c, write)), during);
      case Ready(_, _, _, _, _, _, write, _, during) =>
        MeanwhileTouches(s.(disk := Persisted(s.disk, Proposed(g, s, op), write)), during);
      case Dial(_, _, write, _, during) =>
        MeanwhileTouches(s.(disk := Persisted(s.disk, Proposed(g, s, op), write)), during);
      case Disable(_, _, _, _, _, _) =>
        if Accepted(g, s, op) {
          DisableResult(g, s, op);
        }
      case PersistPending(write, during) =>
        MeanwhileTouches(s.(disk := Persisted(s.disk, s.live, write)), during);
      case Between(event) =>
    }
  }

  lemma {:induction false} GenerationsGrowOverRuns(g: Setting, s: State, ops: seq<Op>)
    ensures Run(g, s, ops).generation >= s.generation
  {
    if ops != [] {
      GenerationsGrowOverRuns(g, s, ops[..|ops| - 1]);
      GenerationsGrow(g, Run(g, s, ops[..|ops| - 1]), ops[|ops| - 1]);
    }
  }

  /** Operation `i` of the run is an accepted Ready from an attempt captured at generation `n` or later. */
  predicate ReadySince(g: Setting, s: State, ops: seq<Op>, i: nat, n: nat) {
    i < |ops| && ops[i].Ready? && Accepted(g, Run(g, s, ops[..i]), ops[i]) && ops[i].attempt.revision >= n
  }

  predicate NoReadySince(g: Setting, s: State, ops: seq<Op>, n: nat) {
    forall i :: 0 <= i < |ops| ==> !ReadySince(g, s, ops, i, n)
  }

  lemma NoReadyBefore(g: Setting, s: State, ops: seq<Op>, n: nat)
    requires ops != [] && NoReadySince(g, s, ops, n)
    ensures NoReadySince(g, s, ops[..|ops| - 1], n)
    ensures var op, t := ops[|ops| - 1], Run(g, s, ops[..|ops| - 1]);
      op.Ready? && Accepted(g, t, op) ==> op.attempt.revision < n
  {
    var before := ops[..|ops| - 1];
    forall i | 0 <= i < |before|
      ensures !ReadySince(g, s, before, i, n)
    {
      assert before[..i] == ops[..i];
      assert !ReadySince(g, s, ops, i, n);
    }
    assert !ReadySince(g, s, ops, |before|, n);
  }

  /**
   * After an accepted disable the live relay stays empty, whatever follows, until a Ready whose
   * attempt was captured at or after the disable's generation is accepted. Until the opener is
   * retired it dials with no relay either.
   */
  lemma {:induction false} DisabledUntilReady(g: Setting, s: State, disable: Op, ops: seq<Op>)
    requires Consistent(s) && disable.Disable? && Accepted(g, s, disable)
    requires NoReadySince(g, Step(g, s, disable), ops, s.generation + 1)
    ensures var t := Run(g, Step(g, s, disable), ops);
      && t.live.relay == None && t.generation >= s.generation + 1
      && Consistent(t) && (!t.retired ==> Relay(t) == None)
    decreases |ops|
  {
    DisableResult(g, s, disable);
    var u := Step(g, s, disable);
    StepKeepsConsistent(g, s, disable);
    if ops != [] {
      var before, op := ops[..|ops| - 1], ops[|ops| - 1];
      NoReadyBefore(g, u, ops, s.generation + 1);
      DisabledUntilReady(g, s, disable, before);
      var t := Run(g, u, before);
      StepKeepsConsistent(g, t, op);
      GenerationsGrow(g, t, op);
      if Accepted(g, t, op) && op.Disable? {
        DisableResult(g, t, op);
      }
    }
  }

  /** A token refresh leased to an earlier generation changes nothing, however much later it arrives. */
  lemma StaleRefreshChangesNothing(g: Setting, s: State, ops: seq<Op>, refresh: Op)
    requires refresh.Refresh? && refresh.lease < s.generation
    ensures Run(g, s, ops + [refresh]) == Run(g, s, ops)
  {
    GenerationsGrowOverRuns(g, s, ops);
    assert (ops + [refresh])[..|ops|] == ops;
  }

  /** Nor does a Ready or a disable from an attempt captured before the generation moved on. */
  lemma StaleAttemptChangesNothing(g: Setting, s: State, ops: seq<Op>, op: Op)
    requires (op.Ready? || op.Disable?) && op.attempt.revision < s.generation
    ensures Run(g, s, ops + [op]) == Run(g, s, ops)
  {
    GenerationsGrowOverRuns(g, s, ops);
    assert (ops + [op])[..|ops|] == ops;
  }
}
