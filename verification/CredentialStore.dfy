/** The credential store and the opener, updated in place as one owner operation after another runs. */
module CredentialStore {
  import opened Prelude
  import opened Credentials

  datatype Publication = ReadyConfirmed | ReadyUncertain | ReadyRefused

  class PrivateLinkOpener {
    var incarnation: nat
    var retired: bool
    var mode: Mode

    constructor (c: Credential)
      ensures mode == Transport(c, 0) && !retired && incarnation == 0
    {
      mode := Transport(c, 0);
      retired, incarnation := false, 0;
    }

    /** A retired opener keeps what it has; any other replacement outdates the dials in flight. */
    method Install(next: Mode)
      modifies this
      ensures retired == old(retired)
      ensures mode == if retired then old(mode) else next
      ensures incarnation == old(incarnation) + if retired then 0 else 1
    {
      if !retired {
        incarnation := incarnation + 1;
        mode := next;
      }
    }

    method RetireNow()
      modifies this
      ensures retired && mode == old(mode) && incarnation == old(incarnation) + 1
    {
      retired := true;
      incarnation := incarnation + 1;
    }
  }

  class Store {
    const setting: Setting
    const opener: PrivateLinkOpener
    var live: Credential
    var generation: nat
    var pending: Option<nat>
    var clearPending: Option<nat>
    var shutdown: bool
    var currentAttempt: nat
    var nextAttempt: nat
    /** The credential file. */
    var disk: Credential

    constructor (setting: Setting, c: Credential)
      ensures this.setting == setting && fresh(opener) && Snapshot() == Fresh(c)
    {
      this.setting := setting;
      opener := new PrivateLinkOpener(c);
      live, disk, generation := c, c, 0;
      pending, clearPending, shutdown := None, None, false;
      currentAttempt, nextAttempt := 0, 0;
    }

    ghost function Snapshot(): State
      reads this, opener
    {
      State(live, generation, pending, clearPending, shutdown, currentAttempt, nextAttempt, disk, opener.retired, opener.mode)
    }

    method AttemptIsCurrent(a: Attempt, expired: bool) returns (current: bool)
      ensures current == Current(setting, Snapshot(), a, expired)
    {
      current := !expired && a.pairing == setting.pairing && a.lane != 0 && currentAttempt == a.owner && !shutdown
        && generation == a.revision && live.relay == a.relay && live.token == a.token;
    }

    // ---------- What other tasks do while the lock is free ----------

    method CaptureAttempt(lane: nat) returns (attempt: Attempt)
      modifies this`nextAttempt, this`currentAttempt
      ensures Snapshot() == Happen(old(Snapshot()), Capture)
      ensures attempt.revision == generation && (lane != 0 && !shutdown ==> Current(setting, Snapshot(), attempt, false))
    {
      nextAttempt := nextAttempt + 1;
      currentAttempt := nextAttempt;
      attempt := Attempt(setting.pairing, lane, nextAttempt, generation, live.relay, live.token);
    }

    method LetOthersRun(events: seq<Elsewhere>)
      modifies this`nextAttempt, this`currentAttempt, this`shutdown, opener
      ensures Snapshot() == Meanwhile(old(Snapshot()), events)
    {
      assert events[..0] == [];
      for i := 0 to |events|
        invariant Snapshot() == Meanwhile(old(Snapshot()), events[..i])
      {
        assert events[..i + 1][..i] == events[..i];
        match events[i] {
          case Capture => var _ := CaptureAttempt(1);
          case Invalidate => shutdown := true;
          case Retire => opener.RetireNow();
        }
      }
      assert events[..|events|] == events;
    }

    /** Replaces the credential file, with the lock released. */
    method Persist(c: Credential, write: Write) returns (ok: bool)
      modifies this`disk
      ensures disk == Persisted(old(disk), c, write) && ok == (write == Succeeds)
    {
      if write != FailsBefore {
        disk := c;
      }
      return write == Succeeds;
    }

    /** Reads the file back and compares the fields a publication sets. */
    method ReadBackMatches(c: Credential, readBack: bool) returns (matches: bool)
      ensures matches == (readBack && SameAccess(disk, c))
    {
      matches := readBack && disk.relay == c.relay && disk.token == c.token && disk.expires == c.expires
        && disk.certificate == c.certificate && disk.endpoints == c.endpoints;
    }

    // ---------- Owner operations ----------

    method RefreshToken(lease: nat, token: string, expires: int, write: Write, during: seq<Elsewhere>)
      modifies this, opener
      ensures Snapshot() == Step(setting, old(Snapshot()), Refresh(lease, token, expires, write, during))
    {
      if shutdown || generation != lease {
        return;
      }
      live := live.(token := Some(token), expires := Some(expires));
      pending := Some(lease);
      var persisted := Persist(live, write);
      LetOthersRun(during);
      if persisted {
        pending := None;
      }
    }

    method SubmitReady(attempt: Attempt, expired: bool, relay: string, token: string, expires: int, transport: bool,
                       write: Write, readBack: bool, during: seq<Elsewhere>)
      returns (r: Publication)
      modifies this, opener
      ensures Snapshot() == Step(setting, old(Snapshot()),
        Ready(attempt, expired, relay, token, expires, transport, write, readBack, during))
      ensures r != ReadyRefused ==> generation == old(generation) + 1 && live.relay == Some(relay)
      ensures r == ReadyConfirmed ==> disk == live && pending == None
      ensures r == ReadyUncertain ==> pending == Some(generation)
    {
      var current := AttemptIsCurrent(attempt, expired);
      if !current || !transport {
        return ReadyRefused;
      }
      var updated := live.(relay := Some(relay), token := Some(token), expires := Some(expires));
      var next := generation + 1;
      var confirmed := Persist(updated, write);
      var matches := ReadBackMatches(updated, readBack);
      MeanwhileTouches(Snapshot(), during);
      LetOthersRun(during);
      if !confirmed && !matches {
        return ReadyRefused;
      }
      live, generation, clearPending := updated, next, None;
      pending := if confirmed then None else Some(next);
      opener.Install(Transport(updated, next));
      return if confirmed then ReadyConfirmed else ReadyUncertain;
    }

    method SubmitDialEndpoints(endpoints: seq<string>, transport: bool, write: Write, readBack: bool, during: seq<Elsewhere>)
      returns (ok: bool)
      modifies this, opener
      ensures Snapshot() == Step(setting, old(Snapshot()), Dial(endpoints, transport, write, readBack, during))
      ensures generation == old(generation) && live.relay == old(live).relay
    {
      if shutdown || setting.generationOf(live.certificate) != setting.pairing {
        return false;
      }
      var merged := setting.merge(endpoints, live.endpoints);
      if merged == [] || merged == live.endpoints {
        return true;
      }
      if !transport {
        return false;
      }
      var updated := live.(endpoints := merged);
      var confirmed := Persist(updated, write);
      var matches := ReadBackMatches(updated, readBack);
      MeanwhileTouches(Snapshot(), during);
      LetOthersRun(during);
      if !confirmed && !matches {
        return false;
      }
      live := updated;
      opener.Install(Transport(updated, generation));
      return true;
    }

    /** The live opener is changed first, so a failed write cannot leave the relay usable. */
    method SubmitDisable(attempt: Attempt, expired: bool, transport: bool, write: Write, before: seq<Elsewhere>,
                         during: seq<Elsewhere>)
      returns (ok: bool)
      modifies this, opener
      ensures Snapshot() == Step(setting, old(Snapshot()), Disable(attempt, expired, transport, write, before, during))
      ensures ok ==> live.relay == None && disk == live && pending == None && clearPending == None
    {
      ghost var s := Snapshot();
      var current := AttemptIsCurrent(attempt, expired);
      if !current {
        return false;
      }
      DisableResult(setting, s, Disable(attempt, expired, transport, write, before, during));
      var direct := live.(relay := None, token := None, expires := None);
      live, pending, generation := direct, None, generation + 1;
      clearPending := Some(generation);
      MeanwhileTouches(Snapshot(), before);
      LetOthersRun(before);
      opener.Install(Mode.Disabled(direct, generation));
      if direct.endpoints != [] {
        if !transport {
          return false;
        }
        opener.Install(Transport(direct, generation));
      }
      ok := FinishDisable(direct, write, during);
    }

    method FinishDisable(direct: Credential, write: Write, during: seq<Elsewhere>) returns (ok: bool)
      requires clearPending == Some(generation)
      modifies this, opener
      ensures var written := Meanwhile(old(Snapshot()).(disk := Persisted(old(disk), direct, write)), during);
        Snapshot() == if write == Succeeds then written.(clearPending := None) else written
      ensures ok == (write == Succeeds)
    {
      ok := Persist(direct, write);
      MeanwhileTouches(Snapshot(), during);
      LetOthersRun(during);
      if ok {
        clearPending := None;
      }
    }

    method PersistWhatIsPending(write: Write, during: seq<Elsewhere>) returns (ok: bool)
      modifies this, opener
      ensures Snapshot() == Step(setting, old(Snapshot()), PersistPending(write, during))
      ensures ok == PersistOk(setting, old(Snapshot()), PersistPending(write, during))
      ensures live == old(live) && generation == old(generation)
    {
      if pending != Some(generation) && clearPending != Some(generation) {
        return true;
      }
      ok := Persist(live, write);
      MeanwhileTouches(Snapshot(), during);
      LetOthersRun(during);
      if ok {
        pending, clearPending := None, None;
      }
    }
  }
}
