/**
 * The coordinator of the two jobs that follow a connection: one lane for metadata, one for relay access.
 *
 * A burst starts both lanes. While it lasts, a trigger asks a running lane for one follow-up
 * and restarts an idle one, and no lane runs more than twice. Triggers, completions and the
 * shutdown arrive in any order; a trigger that saw the coordinator alive may still fire after
 * the shutdown.
 */
module PostConnect {

  datatype Lane = Metadata | Access

  datatype LaneBurst = LaneBurst(passCount: nat, inFlight: bool, followUpRequested: bool, attemptId: nat)

  const IDLE := LaneBurst(0, false, false, 0)

  /** A job that was spawned and has not reported completion. */
  datatype Job = Job(lane: Lane, attemptId: nat)

  /** Passes a lane may still start, and the one in flight. */
  function LanePotential(l: LaneBurst): int {
    2 - l.passCount + if l.inFlight then 1 else 0
  }

  /** A lane within a burst. */
  predicate LaneValid(l: LaneBurst) {
    && l.passCount <= 2
    && (l.inFlight ==> l.passCount >= 1)
    && (l.followUpRequested ==> l.inFlight && l.passCount == 1)
  }

  datatype Event = CheckTrigger | FireTrigger | Dial | Complete(job: Job) | Expire | ClearFollowUps

  // ---------- What each event does ----------

  /** `attemptsBefore` counts the attempts before this burst, `completions` the completions since it began. */
  datatype State = State(alive: bool, active: bool, burstId: nat, deferredMetadata: bool, metadata: LaneBurst,
                         access: LaneBurst, attemptCounter: nat, checkedTriggers: nat, running: set<Job>,
                         attemptsBefore: nat, completions: nat)

  const Quiet := State(true, false, 0, false, IDLE, IDLE, 0, 0, {}, 0, 0)

  function LaneOf(s: State, lane: Lane): LaneBurst {
    match lane case Metadata => s.metadata case Access => s.access
  }

  function WithLane(s: State, lane: Lane, l: LaneBurst): State {
    match lane case Metadata => s.(metadata := l) case Access => s.(access := l)
  }

  /** One more pass of the lane. */
  function Begun(s: State, lane: Lane): State {
    var id, l := s.attemptCounter + 1, LaneOf(s, lane);
    WithLane(s, lane, l.(passCount := l.passCount + 1, inFlight := true, attemptId := id))
      .(attemptCounter := id, running := s.running + {Job(lane, id)})
  }

  /** A follow-up is noted while the first pass runs, and starts at once when none does. */
  function FollowUp(s: State, lane: Lane): State {
    var l := LaneOf(s, lane);
    if l.passCount >= 2 then s
    else if l.inFlight then WithLane(s, lane, l.(followUpRequested := true))
    else Begun(s, lane)
  }

  function Triggered(s: State): State {
    if s.active then FollowUp(FollowUp(s, Metadata), Access)
    else
      var burst := s.(active := true, burstId := s.burstId + 1, deferredMetadata := false, metadata := IDLE, access := IDLE,
                      attemptsBefore := s.attemptCounter, completions := 0);
      Begun(Begun(burst, Metadata), Access)
  }

  /** The pass is over; the follow-up it was asked for starts, and without any the burst ends. */
  function Completed(s: State, job: Job): State {
    var l := LaneOf(s, job.lane);
    var idle := WithLane(s, job.lane, l.(inFlight := false, followUpRequested := false))
      .(running := s.running - {job}, completions := s.completions + 1);
    var deferred := idle.(deferredMetadata :=
                            s.deferredMetadata || (job.lane == Metadata && l.followUpRequested && l.passCount >= 2));
    var next := if l.followUpRequested && l.passCount < 2 && s.alive then Begun(deferred, job.lane) else deferred;
    next.(active := next.active && (next.metadata.inFlight || next.access.inFlight
                                    || next.metadata.followUpRequested || next.access.followUpRequested))
  }

  function After(s: State, e: Event): State {
    match e
    case CheckTrigger => if s.alive then s.(checkedTriggers := s.checkedTriggers + 1) else s
    case FireTrigger => if s.checkedTriggers > 0 then Triggered(s.(checkedTriggers := s.checkedTriggers - 1)) else s
    case Dial => if !s.active && s.alive then s.(checkedTriggers := s.checkedTriggers + 1) else s
    case Complete(job) => if job in s.running then Completed(s, job) else s
    case Expire => s.(alive := false)
    case ClearFollowUps =>
      if s.alive then s
      else s.(metadata := s.metadata.(followUpRequested := false), access := s.access.(followUpRequested := false))
  }

  function AfterAll(s: State, events: seq<Event>): State {
    if events == [] then s else After(AfterAll(s, events[..|events| - 1]), events[|events| - 1])
  }

  // ---------- What every event keeps ----------

  function Potential(s: State): int {
    LanePotential(s.metadata) + LanePotential(s.access)
  }

  /** The job of a lane, when one is in flight. */
  function JobsOf(lane: Lane, l: LaneBurst): set<Job> {
    if l.inFlight then {Job(lane, l.attemptId)} else {}
  }

  /**
   * Each lane starts at most two passes; a follow-up waits only while the first pass runs; the
   * burst is active exactly while some lane is in flight; starts and completions add up.
   */
  ghost predicate Valid(s: State) {
    && LaneValid(s.metadata) && LaneValid(s.access)
    && (s.active <==> s.metadata.inFlight || s.access.inFlight)
    && s.running == JobsOf(Metadata, s.metadata) + JobsOf(Access, s.access)
    && !s.deferredMetadata
    && s.metadata.attemptId <= s.attemptCounter && s.access.attemptId <= s.attemptCounter
    && s.attemptCounter == s.attemptsBefore + s.metadata.passCount + s.access.passCount
    && (s.active ==> s.completions + Potential(s) == 4)
    && s.completions <= 4
  }

  lemma StepKeepsValid(s: State, e: Event)
    requires Valid(s)
    ensures Valid(After(s, e))
  {
    hide Completed, Triggered;
    match e {
      case FireTrigger =>
        if s.checkedTriggers > 0 {
          TriggerKeepsValid(s.(checkedTriggers := s.checkedTriggers - 1));
        }
      case Complete(job) =>
        if job in s.running {
          CompletionKeepsValid(s, job);
        }
      case _ =>
    }
  }

  /** A trigger starts a fresh burst of both lanes, or adds nothing to what the running one may still do. */
  lemma TriggerKeepsValid(s: State)
    requires Valid(s)
    ensures Valid(Triggered(s)) && Triggered(s).active
    ensures if s.active then Triggered(s).burstId == s.burstId && Potential(Triggered(s)) == Potential(s)
            else Triggered(s).burstId == s.burstId + 1 && |Triggered(s).running| == 2
  {
    if s.active {
      FollowUpKeepsValid(s, Metadata);
      FollowUpKeepsValid(FollowUp(s, Metadata), Access);
    }
  }

  lemma FollowUpKeepsValid(s: State, lane: Lane)
    requires Valid(s) && s.active
    ensures Valid(FollowUp(s, lane)) && FollowUp(s, lane).active
    ensures FollowUp(s, lane).burstId == s.burstId && Potential(FollowUp(s, lane)) == Potential(s)
  {
  }

  /** Each completion uses one of the passes in flight or still to come. */
  lemma CompletionKeepsValid(s: State, job: Job)
    requires Valid(s) && job in s.running
    ensures Valid(Completed(s, job)) && job !in Completed(s, job).running
    ensures Completed(s, job).burstId == s.burstId && Potential(Completed(s, job)) == Potential(s) - 1
    ensures Completed(s, job).completions == s.completions + 1
  {
    match job.lane {
      case Metadata => MetadataCompletionKeepsValid(s, job);
      case Access => AccessCompletionKeepsValid(s, job);
    }
    hide Completed, Valid;
  }

  lemma MetadataCompletionKeepsValid(s: State, job: Job)
    requires Valid(s) && job in s.running && job.lane == Metadata
    ensures Valid(Completed(s, job)) && job !in Completed(s, job).running
    ensures Completed(s, job).burstId == s.burstId && Potential(Completed(s, job)) == Potential(s) - 1
  {
  }

  lemma AccessCompletionKeepsValid(s: State, job: Job)
    requires Valid(s) && job in s.running && job.lane == Access
    ensures Valid(Completed(s, job)) && job !in Completed(s, job).running
    ensures Completed(s, job).burstId == s.burstId && Potential(Completed(s, job)) == Potential(s) - 1
  {
  }

  // ---------- The coordinator, updated in place ----------

  class Coordinator {
    var alive: bool
    var active: bool
    var burstId: nat
    var deferredMetadata: bool
    var metadata: LaneBurst
    var access: LaneBurst
    var attemptCounter: nat
    /** Triggers that found the coordinator alive and have not taken the lock yet. */
    var checkedTriggers: nat
    var running: set<Job>
    var attemptsBefore: nat
    var completions: nat

    constructor ()
      ensures Now() == Quiet
    {
      alive, active, deferredMetadata := true, false, false;
      metadata, access := IDLE, IDLE;
      burstId, attemptCounter, checkedTriggers := 0, 0, 0;
      running, attemptsBefore, completions := {}, 0, 0;
    }

    function Now(): State
      reads this
    {
      State(alive, active, burstId, deferredMetadata, metadata, access, attemptCounter, checkedTriggers, running,
            attemptsBefore, completions)
    }

    /** The lane as it is after one more pass was started, unless it cannot start one. */
    method StartLane(lane: Lane, l: LaneBurst) returns (next: LaneBurst, started: bool)
      modifies this`attemptCounter, this`running
      ensures started <==> !l.inFlight && l.passCount < 2
      ensures WithLane(Now(), lane, next) ==
        if started then Begun(WithLane(old(Now()), lane, l), lane) else WithLane(old(Now()), lane, l)
    {
      if l.inFlight || l.passCount >= 2 {
        return l, false;
      }
      attemptCounter := attemptCounter + 1;
      next := l.(passCount := l.passCount + 1, inFlight := true, attemptId := attemptCounter);
      running := running + {Job(lane, attemptCounter)};
      started := true;
    }

    /** A follow-up is noted while the first pass runs, and starts at once when none does. */
    method RequestFollowUp(lane: Lane, l: LaneBurst) returns (next: LaneBurst)
      modifies this`attemptCounter, this`running
      ensures WithLane(Now(), lane, next) == FollowUp(WithLane(old(Now()), lane, l), lane)
    {
      if l.passCount >= 2 {
        return l;
      }
      if l.inFlight {
        return l.(followUpRequested := true);
      }
      var started;
      next, started := StartLane(lane, l);
    }

    /** The locked part of a trigger: a fresh burst when quiescent, otherwise follow-ups. */
    method Trigger()
      requires Valid(Now())
      modifies this
      ensures Now() == Triggered(old(Now())) && Valid(Now()) && active
      ensures !old(active) ==> burstId == old(burstId) + 1 && |running| == 2
      ensures old(active) ==> burstId == old(burstId) && Potential(Now()) == Potential(old(Now()))
    {
      hide Valid, Begun, FollowUp;
      TriggerKeepsValid(Now());
      if !active {
        StartBurst();
      } else {
        ghost var before := Now();
        var m := RequestFollowUp(Metadata, metadata);
        metadata := m;
        assert Now() == FollowUp(before, Metadata);
        var a := RequestFollowUp(Access, access);
        access := a;
      }
    }

    method StartBurst()
      requires !active
      modifies this
      ensures Now() == Triggered(old(Now()))
    {
      hide Triggered;
      FreshBurst(Now());
      active, burstId, deferredMetadata := true, burstId + 1, false;
      attemptsBefore, completions := attemptCounter, 0;
      var m, a, started;
      m, started := StartLane(Metadata, IDLE);
      a, started := StartLane(Access, IDLE);
      metadata, access := m, a;
    }

    /** A finished pass: the requested follow-up starts unless the coordinator is shut down. */
    method FinishPass(lane: Lane, l: LaneBurst) returns (next: LaneBurst)
      modifies this`attemptCounter, this`running
      ensures var idle := WithLane(old(Now()), lane, l.(inFlight := false, followUpRequested := false));
        WithLane(Now(), lane, next) == if l.followUpRequested && l.passCount < 2 && alive then Begun(idle, lane) else idle
    {
      var idle := l.(inFlight := false, followUpRequested := false);
      if l.followUpRequested && l.passCount < 2 && alive {
        var started;
        next, started := StartLane(lane, idle);
      } else {
        next := idle;
      }
    }

    method OnComplete(job: Job)
      requires Valid(Now()) && job in running
      modifies this
      ensures Now() == Completed(old(Now()), job) && Valid(Now()) && job !in running && burstId == old(burstId)
      ensures completions == old(completions) + 1 && Potential(Now()) == Potential(old(Now())) - 1
    {
      hide Valid, Completed;
      CompletionKeepsValid(Now(), job);
      match job.lane {
        case Metadata => OnMetadataComplete(job.attemptId);
        case Access => OnAccessComplete(job.attemptId);
      }
    }

    method OnMetadataComplete(attemptId: nat)
      modifies this
      ensures Now() == Completed(old(Now()), Job(Metadata, attemptId))
    {
      hide Begun;
      running := running - {Job(Metadata, attemptId)};
      completions := completions + 1;
      deferredMetadata := deferredMetadata || (metadata.followUpRequested && metadata.passCount >= 2);
      var next := FinishPass(Metadata, metadata);
      metadata := next;
      FinishIfQuiescent();
    }

    method OnAccessComplete(attemptId: nat)
      modifies this
      ensures Now() == Completed(old(Now()), Job(Access, attemptId))
    {
      hide Begun;
      running := running - {Job(Access, attemptId)};
      completions := completions + 1;
      var next := FinishPass(Access, access);
      access := next;
      FinishIfQuiescent();
    }

    method FinishIfQuiescent()
      modifies this`active
      ensures active == (old(active)
        && (metadata.inFlight || access.inFlight || metadata.followUpRequested || access.followUpRequested))
    {
      if !metadata.inFlight && !access.inFlight && !metadata.followUpRequested && !access.followUpRequested {
        active := false;
      }
    }

    method Step(e: Event)
      requires Valid(Now())
      modifies this
      ensures Now() == After(old(Now()), e) && Valid(Now())
    {
      hide Valid, Completed, Triggered;
      StepKeepsValid(Now(), e);
      match e {
        case CheckTrigger =>
          if alive {
            checkedTriggers := checkedTriggers + 1;
          }
        case FireTrigger =>
          if checkedTriggers > 0 {
            TakingKeepsValid(Now());
            checkedTriggers := checkedTriggers - 1;
            Trigger();
          }
        case Dial =>
          if !active && alive {
            checkedTriggers := checkedTriggers + 1;
          }
        case Complete(job) =>
          if job in running {
            OnComplete(job);
          }
        case Expire =>
          alive := false;
        case ClearFollowUps => ForgetFollowUps();
      }
    }

    /** The locked part of the shutdown. */
    method ForgetFollowUps()
      modifies this`metadata, this`access
      ensures Now() == After(old(Now()), ClearFollowUps)
    {
      if !alive {
        metadata, access := metadata.(followUpRequested := false), access.(followUpRequested := false);
      }
    }

    /** Once the triggers stop, the jobs run out: one completion for each pass in flight or still to come, never over four. */
    method Drain() returns (done: seq<Event>)
      requires Valid(Now())
      modifies this
      ensures Valid(Now()) && !active && running == {}
      ensures Now() == AfterAll(old(Now()), done) && forall i :: 0 <= i < |done| ==> done[i].Complete?
      ensures |done| <= 4 && burstId == old(burstId)
      ensures completions == old(completions) + |done| <= 4
      ensures Potential(Now()) == Potential(old(Now())) - |done|
    {
      hide Completed;
      done := [];
      while active
        invariant Valid(Now()) && burstId == old(burstId)
        invariant Now() == AfterAll(old(Now()), done) && forall i :: 0 <= i < |done| ==> done[i].Complete?
        invariant completions == old(completions) + |done| && Potential(Now()) == Potential(old(Now())) - |done|
        decreases Potential(Now())
      {
        var job :| job in running;
        OnComplete(job);
        assert (done + [Complete(job)])[..|done|] == done;
        done := done + [Complete(job)];
      }
    }
  }

  lemma TakingKeepsValid(s: State)
    requires Valid(s) && s.checkedTriggers > 0
    ensures Valid(s.(checkedTriggers := s.checkedTriggers - 1))
  {
  }

  /** A fresh burst has one pass of each lane in flight. */
  lemma FreshBurst(s: State)
    requires !s.active
    ensures var n := s.attemptCounter;
      Triggered(s) == State(s.alive, true, s.burstId + 1, false, LaneBurst(1, true, false, n + 1), LaneBurst(1, true, false, n + 2),
                            n + 2, s.checkedTriggers, s.running + {Job(Metadata, n + 1)} + {Job(Access, n + 2)}, n, 0)
  {
  }

  /** Each lane has had at most two passes, and a burst is active exactly while a lane is in flight. */
  predicate InBounds(s: State) {
    LaneValid(s.metadata) && LaneValid(s.access) && (s.active <==> s.metadata.inFlight || s.access.inFlight)
  }

  /**
   * Over any sequence of events no lane runs more than twice in a burst and a burst is active only
   * while a lane is in flight. Whenever the triggers stop it ends after at most four completions,
   * one for each pass in flight or still to come.
   */
  method AnyBurst(events: seq<Event>) returns (state: State, done: seq<Event>)
    ensures state == AfterAll(Quiet, events) && InBounds(state)
    ensures forall i :: 0 <= i < |done| ==> done[i].Complete?
    ensures var after := AfterAll(state, done);
      && InBounds(after) && !after.active && after.running == {} && |done| <= 4
      && |done| == LanePotential(state.metadata) + LanePotential(state.access)
                   - LanePotential(after.metadata) - LanePotential(after.access)
  {
    hide AfterAll, Valid, InBounds;
    QuietIsValid();
    NoEvents(Quiet, events);
    var c := new Coordinator();
    for i := 0 to |events|
      invariant fresh(c) && Valid(c.Now()) && c.Now() == AfterAll(Quiet, events[..i])
    {
      OneMore(Quiet, events, i);
      c.Step(events[i]);
    }
    state := c.Now();
    ValidIsInBounds(state);
    done := c.Drain();
    ValidIsInBounds(c.Now());
  }

  lemma QuietIsValid()
    ensures Valid(Quiet)
  {
  }

  lemma NoEvents(s: State, events: seq<Event>)
    ensures AfterAll(s, events[..0]) == s && events[..|events|] == events
  {
  }

  lemma OneMore(s: State, events: seq<Event>, i: nat)
    requires i < |events|
    ensures AfterAll(s, events[..i + 1]) == After(AfterAll(s, events[..i]), events[i])
  {
    hide After;
    assert events[..i + 1][..i] == events[..i];
  }

  lemma ValidIsInBounds(s: State)
    requires Valid(s)
    ensures InBounds(s)
  {
  }
}
