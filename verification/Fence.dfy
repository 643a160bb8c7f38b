/**
 * The fence between irreversible removals and shutdown, for any number of tasks in any order.
 *
 * A removal takes the mutex, looks whether removals are still accepted, and waits for the one
 * permit while it holds the mutex. The permit then belongs to a blocking worker, which goes on when
 * its waiter is cancelled. Closing takes the mutex, refuses further removals and waits for the permit; the
 * instance lock is dropped only after that.
 */
module Fence {
  import opened Prelude

  datatype Phase = WaitsForMutex | LooksAtFlag | WaitsForPermit | Removes | Gone

  datatype DrainPhase = NotClosing | ClosingWaitsForMutex | ClosingWaitsForPermit | ClosingHoldsPermit | Drained

  datatype Owner = Remover(id: nat) | Closer

  datatype Entry = Began(id: nat) | Unlinked(id: nat) | Ended(id: nat) | LockDropped

  datatype Event =
    | Arrive(id: nat) | TakeMutex(id: nat) | Look(id: nat) | TakePermit(id: nat) | Unlink(id: nat) | Finish(id: nat)
    | Cancel(id: nat)
    | Close | CloserTakesMutex | CloserTakesPermit | CloserReturns | DropLock

  /** `log` is what happened, in order. */
  datatype State = State(tasks: map<nat, Phase>, drain: DrainPhase, mutex: Option<Owner>, permit: Option<Owner>,
                         accepting: bool, instanceLock: bool, log: seq<Entry>)

  const Idle := State(map[], NotClosing, None, None, true, true, [])

  predicate At(tasks: map<nat, Phase>, id: nat, phase: Phase) {
    id in tasks && tasks[id] == phase
  }

  // ---------- Steps ----------

  /** An event that can happen now. */
  predicate Enabled(s: State, e: Event) {
    match e
    case Arrive(id) => id !in s.tasks
    case TakeMutex(id) => At(s.tasks, id, WaitsForMutex) && s.mutex == None
    case Look(id) => At(s.tasks, id, LooksAtFlag)
    case TakePermit(id) => At(s.tasks, id, WaitsForPermit) && s.permit == None
    case Unlink(id) => At(s.tasks, id, Removes)
    case Finish(id) => At(s.tasks, id, Removes)
    case Cancel(id) => id in s.tasks && !At(s.tasks, id, Removes)
    case Close => s.drain == NotClosing
    case CloserTakesMutex => s.drain == ClosingWaitsForMutex && s.mutex == None
    case CloserTakesPermit => s.drain == ClosingWaitsForPermit && s.permit == None
    case CloserReturns => s.drain == ClosingHoldsPermit
    case DropLock => s.drain == Drained && s.instanceLock
  }

  /** Every enabled event happens, and nothing else does. */
  function After(s: State, e: Event): State {
    if !Enabled(s, e) then s
    else
      match e
      case Arrive(id) => s.(tasks := s.tasks[id := WaitsForMutex])
      case TakeMutex(id) => s.(tasks := s.tasks[id := LooksAtFlag], mutex := Some(Remover(id)))
      case Look(id) =>
        if s.accepting then s.(tasks := s.tasks[id := WaitsForPermit]) else s.(tasks := s.tasks[id := Gone], mutex := None)
      case TakePermit(id) =>
        s.(tasks := s.tasks[id := Removes], mutex := None, permit := Some(Remover(id)), log := s.log + [Began(id)])
      case Unlink(id) => s.(log := s.log + [Unlinked(id)])
      case Finish(id) => s.(tasks := s.tasks[id := Gone], permit := None, log := s.log + [Ended(id)])
      case Cancel(id) =>
        s.(tasks := s.tasks[id := Gone], mutex := if s.mutex == Some(Remover(id)) then None else s.mutex)
      case Close => s.(drain := ClosingWaitsForMutex)
      case CloserTakesMutex => s.(drain := ClosingWaitsForPermit, mutex := Some(Closer), accepting := false)
      case CloserTakesPermit => s.(drain := ClosingHoldsPermit, permit := Some(Closer))
      case CloserReturns => s.(drain := Drained, mutex := None, permit := None)
      case DropLock => s.(instanceLock := false, log := s.log + [LockDropped])
  }

  function AfterAll(s: State, events: seq<Event>): State {
    if events == [] then s else After(AfterAll(s, events[..|events| - 1]), events[|events| - 1])
  }

  /** Supervision, updated in place. */
  class Supervision {
    var tasks: map<nat, Phase>
    var drain: DrainPhase
    var mutex: Option<Owner>
    var permit: Option<Owner>
    var accepting: bool
    var instanceLock: bool
    var log: seq<Entry>

    constructor ()
      ensures Now() == Idle
    {
      tasks, drain, mutex, permit := map[], NotClosing, None, None;
      accepting, instanceLock, log := true, true, [];
    }

    function Now(): State
      reads this
    {
      State(tasks, drain, mutex, permit, accepting, instanceLock, log)
    }

    method Step(e: Event)
      requires Valid(Now())
      modifies this
      ensures Now() == After(old(Now()), e) && Valid(Now())
    {
      StepKeepsValid(Now(), e);
      match e {
        case Arrive(id) =>
          if id !in tasks {
            tasks := tasks[id := WaitsForMutex];
          }
        case TakeMutex(id) => TakeTheMutex(id);
        case Look(id) => LookAtTheFlag(id);
        case Cancel(id) => CancelTask(id);
        case TakePermit(id) => BeginRemoval(id);
        case Unlink(id) => UnlinkFile(id);
        case Finish(id) => EndRemoval(id);
        case _ => CloserStep(e);
      }
    }

    method TakeTheMutex(id: nat)
      modifies this`tasks, this`mutex
      ensures Now() == After(old(Now()), TakeMutex(id))
    {
      if At(tasks, id, WaitsForMutex) && mutex == None {
        tasks, mutex := tasks[id := LooksAtFlag], Some(Remover(id));
      }
    }

    method LookAtTheFlag(id: nat)
      modifies this`tasks, this`mutex
      ensures Now() == After(old(Now()), Look(id))
    {
      if At(tasks, id, LooksAtFlag) {
        if accepting {
          tasks := tasks[id := WaitsForPermit];
        } else {
          tasks, mutex := tasks[id := Gone], None;
        }
      }
    }

    /** A task is dropped while it waits: it gives back the mutex. A removal that began goes on. */
    method CancelTask(id: nat)
      modifies this`tasks, this`mutex
      ensures Now() == After(old(Now()), Cancel(id))
    {
      if id in tasks && !At(tasks, id, Removes) {
        mutex := if mutex == Some(Remover(id)) then None else mutex;
        tasks := tasks[id := Gone];
      }
    }

    /** The permit goes to the worker, and the mutex back. */
    method BeginRemoval(id: nat)
      modifies this`tasks, this`mutex, this`permit, this`log
      ensures Now() == After(old(Now()), TakePermit(id))
    {
      if At(tasks, id, WaitsForPermit) && permit == None {
        tasks := tasks[id := Removes];
        mutex, permit := None, Some(Remover(id));
        log := log + [Began(id)];
      }
    }

    method UnlinkFile(id: nat)
      modifies this`log
      ensures Now() == After(old(Now()), Unlink(id))
    {
      if At(tasks, id, Removes) {
        log := log + [Unlinked(id)];
      }
    }

    method EndRemoval(id: nat)
      modifies this`tasks, this`permit, this`log
      ensures Now() == After(old(Now()), Finish(id))
    {
      if At(tasks, id, Removes) {
        tasks := tasks[id := Gone];
        permit := None;
        log := log + [Ended(id)];
      }
    }

    method CloserStep(e: Event)
      requires e.Close? || e.CloserTakesMutex? || e.CloserTakesPermit? || e.CloserReturns? || e.DropLock?
      modifies this
      ensures Now() == After(old(Now()), e)
    {
      match e {
        case Close =>
          if drain == NotClosing {
            drain := ClosingWaitsForMutex;
          }
        case CloserTakesMutex =>
          if drain == ClosingWaitsForMutex && mutex == None {
            drain, mutex, accepting := ClosingWaitsForPermit, Some(Closer), false;
          }
        case CloserTakesPermit =>
          if drain == ClosingWaitsForPermit && permit == None {
            drain, permit := ClosingHoldsPermit, Some(Closer);
          }
        case CloserReturns =>
          if drain == ClosingHoldsPermit {
            drain, mutex, permit := Drained, None, None;
          }
        case DropLock =>
          if drain == Drained && instanceLock {
            instanceLock := false;
            log := log + [LockDropped];
          }
        case _ =>
      }
    }
  }

  // ---------- The log ----------

  /** The removal that has begun and not ended. */
  function Current(log: seq<Entry>): Option<nat> {
    if log == [] then None
    else
      match log[|log| - 1]
      case Began(id) => Some(id)
      case Ended(_) => None
      case _ => Current(log[..|log| - 1])
  }

  /** A removal begins only when none is running, and unlinks only while it runs. */
  predicate OneAtATime(log: seq<Entry>) {
    forall i :: 0 <= i < |log| ==>
      match log[i]
      case Began(_) => Current(log[..i]) == None
      case Unlinked(id) => Current(log[..i]) == Some(id)
      case Ended(id) => Current(log[..i]) == Some(id)
      case LockDropped => Current(log[..i]) == None
  }

  predicate NothingAfterDrop(log: seq<Entry>) {
    forall i :: 0 <= i < |log| - 1 ==> log[i] != LockDropped
  }

  lemma LogGrows(log: seq<Entry>, e: Entry)
    requires OneAtATime(log) && NothingAfterDrop(log) && LockDropped !in log
    requires match e
      case Began(_) => Current(log) == None
      case Unlinked(id) => Current(log) == Some(id)
      case Ended(id) => Current(log) == Some(id)
      case LockDropped => Current(log) == None
    ensures OneAtATime(log + [e]) && NothingAfterDrop(log + [e])
    ensures Current(log + [e]) == match e case Began(id) => Some(id) case Ended(_) => None case _ => Current(log)
  {
    var now := log + [e];
    assert now[..|log|] == log;
    forall i | 0 <= i < |log|
      ensures now[..i] == log[..i]
    {
    }
  }

  lemma BeginningIsAlone(log: seq<Entry>, id: nat)
    requires OneAtATime(log) && NothingAfterDrop(log) && LockDropped !in log && Current(log) == None
    ensures OneAtATime(log + [Began(id)]) && NothingAfterDrop(log + [Began(id)]) && Current(log + [Began(id)]) == Some(id)
  {
    LogGrows(log, Began(id));
  }

  lemma UnlinkingIsCurrent(log: seq<Entry>, id: nat)
    requires OneAtATime(log) && NothingAfterDrop(log) && LockDropped !in log && Current(log) == Some(id)
    ensures OneAtATime(log + [Unlinked(id)]) && NothingAfterDrop(log + [Unlinked(id)]) && Current(log + [Unlinked(id)]) == Some(id)
  {
    LogGrows(log, Unlinked(id));
  }

  lemma EndingClears(log: seq<Entry>, id: nat)
    requires OneAtATime(log) && NothingAfterDrop(log) && LockDropped !in log && Current(log) == Some(id)
    ensures OneAtATime(log + [Ended(id)]) && NothingAfterDrop(log + [Ended(id)]) && Current(log + [Ended(id)]) == None
  {
    LogGrows(log, Ended(id));
  }

  lemma DroppingEndsIt(log: seq<Entry>)
    requires OneAtATime(log) && NothingAfterDrop(log) && LockDropped !in log && Current(log) == None
    ensures OneAtATime(log + [LockDropped]) && NothingAfterDrop(log + [LockDropped]) && Current(log + [LockDropped]) == None
  {
    LogGrows(log, LockDropped);
  }

  // ---------- What every step keeps ----------

  /** Who holds the mutex and the permit is exactly who is in the phases that hold them. */
  ghost predicate HoldersAgree(s: State) {
    && (forall id: nat ::
          s.mutex == Some(Remover(id)) <==> At(s.tasks, id, LooksAtFlag) || At(s.tasks, id, WaitsForPermit))
    && (s.mutex == Some(Closer) <==> s.drain == ClosingWaitsForPermit || s.drain == ClosingHoldsPermit)
    && (forall id: nat :: s.permit == Some(Remover(id)) <==> At(s.tasks, id, Removes))
    && (s.permit == Some(Closer) <==> s.drain == ClosingHoldsPermit)
  }

  /** The removal that is running, if any. */
  function Running(permit: Option<Owner>): Option<nat> {
    match permit
    case Some(Remover(id)) => Some(id)
    case _ => None
  }

  ghost predicate Valid(s: State) {
    && HoldersAgree(s)
    && (s.accepting <==> s.drain == NotClosing || s.drain == ClosingWaitsForMutex)
    && (s.drain == Drained ==> s.permit == None)
    && (!s.accepting ==> forall id: nat :: !At(s.tasks, id, WaitsForPermit))
    && (!s.instanceLock ==> s.drain == Drained)
    && (LockDropped in s.log <==> !s.instanceLock)
    && NothingAfterDrop(s.log) && OneAtATime(s.log) && Current(s.log) == Running(s.permit)
  }

  lemma StepKeepsValid(s: State, e: Event)
    requires Valid(s)
    ensures Valid(After(s, e))
  {
    StepKeepsHolders(s, e);
    StepKeepsFlag(s, e);
    StepKeepsLog(s, e);
    hide OneAtATime, NothingAfterDrop, Current, After, HoldersAgree;
  }

  lemma StepKeepsHolders(s: State, e: Event)
    requires Valid(s)
    ensures HoldersAgree(After(s, e))
  {
    hide OneAtATime, NothingAfterDrop, Current;
  }

  lemma StepKeepsFlag(s: State, e: Event)
    requires Valid(s)
    ensures var now := After(s, e);
      && (now.accepting <==> now.drain == NotClosing || now.drain == ClosingWaitsForMutex)
      && (now.drain == Drained ==> now.permit == None)
      && (!now.accepting ==> forall id: nat :: !At(now.tasks, id, WaitsForPermit))
      && (!now.instanceLock ==> now.drain == Drained)
  {
    hide OneAtATime, NothingAfterDrop, Current;
    var now := After(s, e);
    if !now.accepting {
      forall id: nat
        ensures !At(now.tasks, id, WaitsForPermit)
      {
        assert At(s.tasks, id, WaitsForPermit) ==> s.mutex == Some(Remover(id));
      }
    }
  }

  lemma StepKeepsLog(s: State, e: Event)
    requires Valid(s)
    ensures var now := After(s, e);
      && (LockDropped in now.log <==> !now.instanceLock)
      && NothingAfterDrop(now.log) && OneAtATime(now.log) && Current(now.log) == Running(now.permit)
  {
    hide OneAtATime, NothingAfterDrop, Current;
    match e {
      case TakePermit(id) =>
        if Enabled(s, e) {
          BeginningIsAlone(s.log, id);
        }
      case Unlink(id) =>
        if Enabled(s, e) {
          UnlinkingIsCurrent(s.log, id);
        }
      case Finish(id) =>
        if Enabled(s, e) {
          EndingClears(s.log, id);
        }
      case DropLock =>
        if Enabled(s, e) {
          DroppingEndsIt(s.log);
        }
      case _ =>
    }
  }

  lemma {:induction false} RunKeepsValid(events: seq<Event>)
    ensures Valid(AfterAll(Idle, events))
  {
    hide Valid, After;
    if events == [] {
      IdleIsValid();
    } else {
      RunKeepsValid(events[..|events| - 1]);
      StepKeepsValid(AfterAll(Idle, events[..|events| - 1]), events[|events| - 1]);
    }
  }

  lemma IdleIsValid()
    ensures Valid(Idle)
  {
  }

  /** Once closing has returned nothing is removed any more: the log can only gain the lock drop. */
  lemma {:induction false} NothingAfterDrain(s: State, events: seq<Event>)
    requires Valid(s) && s.drain == Drained
    ensures AfterAll(s, events).drain == Drained && Valid(AfterAll(s, events))
    ensures AfterAll(s, events).log == if AfterAll(s, events).instanceLock == s.instanceLock then s.log else s.log + [LockDropped]
  {
    hide OneAtATime, NothingAfterDrop, Current;
    if events != [] {
      NothingAfterDrain(s, events[..|events| - 1]);
      StepKeepsValid(AfterAll(s, events[..|events| - 1]), events[|events| - 1]);
    }
  }

  // ---------- Closing returns ----------

  predicate Closing(s: State) { s.drain != NotClosing && s.drain != Drained }

  function DrainRank(d: DrainPhase): nat {
    match d case NotClosing => 4 case ClosingWaitsForMutex => 3 case ClosingWaitsForPermit => 2 case ClosingHoldsPermit => 1
            case Drained => 0
  }

  /** How far closing is from its return, when nobody else comes. */
  function Rank(s: State): nat {
    var mutexRank: nat := match s.mutex
      case Some(Remover(id)) => if At(s.tasks, id, LooksAtFlag) then 4 else 2
      case _ => 0;
    10 * DrainRank(s.drain) + mutexRank + if Running(s.permit).Some? then 1 else 0
  }

  /** Who can move. */
  function Mover(s: State): Event {
    match s.mutex
    case None => CloserTakesMutex
    case Some(Remover(id)) =>
      if At(s.tasks, id, LooksAtFlag) then Look(id)
      else (match s.permit case Some(Remover(other)) => Finish(other) case _ => TakePermit(id))
    case Some(Closer) =>
      match s.permit
      case None => CloserTakesPermit
      case Some(Closer) => CloserReturns
      case Some(Remover(other)) => Finish(other)
  }

  /** Closing never gets stuck: until it returns, some task can move, and that brings its return closer. */
  lemma SomeoneMoves(s: State)
    requires Valid(s) && Closing(s)
    ensures Enabled(s, Mover(s)) && Rank(After(s, Mover(s))) < Rank(s)
  {
    hide OneAtATime, NothingAfterDrop, Current;
  }

  /** From any state in which closing has begun, it returns within 40 more steps if the tasks go on. */
  lemma {:induction false} ClosingCanReturn(s: State) returns (events: seq<Event>)
    requires Valid(s) && Closing(s)
    ensures |events| <= Rank(s) && AfterAll(s, events).drain == Drained
    decreases Rank(s)
  {
    hide Valid, After, Rank;
    SomeoneMoves(s);
    StepKeepsValid(s, Mover(s));
    MovingKeepsClosing(s, Mover(s));
    var next := After(s, Mover(s));
    if next.drain == Drained {
      assert [Mover(s)][..0] == [];
      return [Mover(s)];
    }
    var rest := ClosingCanReturn(next);
    AfterFirst(s, Mover(s), rest);
    return [Mover(s)] + rest;
  }

  lemma MovingKeepsClosing(s: State, e: Event)
    requires Closing(s)
    ensures After(s, e).drain == Drained || Closing(After(s, e))
  {
  }

  lemma {:induction false} AfterFirst(s: State, e: Event, rest: seq<Event>)
    ensures AfterAll(s, [e] + rest) == AfterAll(After(s, e), rest)
  {
    hide After;
    if rest == [] {
      assert [e] + rest == [e] && [e][..0] == [];
    } else {
      AfterFirst(s, e, rest[..|rest| - 1]);
      assert ([e] + rest)[..|rest|] == [e] + rest[..|rest| - 1];
    }
  }

  /**
   * Over any interleaving: at most one removal runs at a time, every unlink lies within a removal,
   * and nothing is unlinked after the instance lock was dropped, which happens only after closing
   * has returned.
   */
  method AnyInterleaving(events: seq<Event>) returns (state: State)
    ensures state == AfterAll(Idle, events)
    ensures OneAtATime(state.log) && NothingAfterDrop(state.log)
    ensures state.drain == Drained ==> Current(state.log) == None
    ensures LockDropped in state.log ==> state.drain == Drained
  {
    hide After;
    IdleIsValid();
    var s := new Supervision();
    for i := 0 to |events|
      invariant fresh(s) && Valid(s.Now()) && s.Now() == AfterAll(Idle, events[..i])
    {
      s.Step(events[i]);
      assert events[..i + 1][..i] == events[..i];
    }
    assert events[..|events|] == events;
    state := s.Now();
  }
}
