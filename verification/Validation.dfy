/** Validation of a segment directory against its metadata, step by step. */
module Validation {
  import opened Prelude
  import opened Jsonl
  import opened Storage
  import opened Records
  import opened SegmentLog
  import opened Recovery
  import opened Numbering
  import Names

  datatype Repair = Repair(name: string, length: nat)

  datatype Verdict = Contradictory | Agreement(repairs: seq<Repair>, updated: Meta)

  /** The lengths a list of repairs gives one file, in order. */
  function LengthsFor(repairs: seq<Repair>, name: string): seq<nat> {
    if repairs == [] then []
    else
      var init, last := repairs[..|repairs| - 1], repairs[|repairs| - 1];
      LengthsFor(init, name) + (if last.name == name then [last.length] else [])
  }

  lemma {:induction false} LengthsForAppend(repairs: seq<Repair>, more: seq<Repair>, name: string)
    ensures LengthsFor(repairs + more, name) == LengthsFor(repairs, name) + LengthsFor(more, name)
  {
    if more == [] {
      assert repairs + more == repairs;
    } else {
      var both := repairs + more;
      assert both[..|both| - 1] == repairs + more[..|more| - 1];
      LengthsForAppend(repairs, more[..|more| - 1], name);
    }
  }

  /** Cuts of one file, as repairs. */
  function RepairsOf(name: string, cuts: seq<nat>): (r: seq<Repair>)
    ensures |r| == |cuts|
  {
    seq(|cuts|, i requires 0 <= i < |cuts| => Repair(name, cuts[i]))
  }

  lemma {:induction false} LengthsForOne(name: string, cuts: seq<nat>, other: string)
    ensures LengthsFor(RepairsOf(name, cuts), other) == if other == name then cuts else []
  {
    if cuts != [] {
      var init := cuts[..|cuts| - 1];
      LengthsForOne(name, init, other);
      assert RepairsOf(name, cuts)[..|cuts| - 1] == RepairsOf(name, init);
      assert init + [cuts[|cuts| - 1]] == cuts;
    }
  }

  /** What validation relies on: consistent metadata, whether or not its length was bounded since. */
  predicate Checked(stem: string, m: Meta) {
    && TimeName(stem) && FilenamesDiffer(m)
    && forall k :: k in m.sessions ==> m.sessions[k].session == k && FileOf(k, m.sessions[k].filename)
  }

  // ---------- One session ----------

  /** Reads one session's file and decides what to cut. */
  method ReadSession(decode: Decoder, dir: Dir, s: Session)
    returns (ok: bool, cuts: seq<nat>, updated: Session, ids: seq<nat>)
    ensures ok <==> SessionGood(decode, dir, s)
    ensures ok ==> ids == Committed(decode, dir, s).ids && updated == UpdatedSession(decode, dir, s)
    ensures ok ==> cuts == SessionCuts(decode, dir, s)
  {
    cuts, updated, ids := [], s, [];
    ok := s.filename in dir && |dir[s.filename]| >= s.durableOffset;
    if ok {
      hide Parse;
      var bytes := dir[s.filename];
      var recorded := s.durableOffset;
      var offset, torn;
      offset, ids, torn := ParseRecordedPrefix(decode, bytes[..recorded]);
      if torn {
        cuts, updated := [offset], s.(durableOffset := offset, lastFrameId := LastId(ids));
      }
      ok := (torn || (offset == recorded && LastId(ids) == s.lastFrameId)) && NEWLINE !in bytes[recorded..];
      if |bytes| > recorded {
        cuts := cuts + [recorded];
      }
    }
  }

  // ---------- All sessions ----------

  predicate Owns(m: Meta, done: set<string>, k: string, name: string) {
    k in m.sessions && k in done && m.sessions[k].filename == name
  }

  /** The cuts of the sessions in `done` only. */
  ghost function CutsOf(decode: Decoder, dir: Dir, m: Meta, done: set<string>, name: string): seq<nat> {
    if k: string :| Owns(m, done, k, name) then SessionCuts(decode, dir, m.sessions[k]) else []
  }

  lemma CutsOfOwner(decode: Decoder, dir: Dir, m: Meta, done: set<string>, k: string)
    requires FilenamesDiffer(m) && k in m.sessions && k in done
    ensures CutsOf(decode, dir, m, done, m.sessions[k].filename) == SessionCuts(decode, dir, m.sessions[k])
  {
    assert Owns(m, done, k, m.sessions[k].filename);
  }

  /** One more session done changes the cuts of its own file only. */
  lemma CutsOfOneMore(decode: Decoder, dir: Dir, m: Meta, done: set<string>, k: string, name: string)
    requires FilenamesDiffer(m) && k in m.sessions && k !in done
    ensures CutsOf(decode, dir, m, done + {k}, name)
         == CutsOf(decode, dir, m, done, name)
          + (if name == m.sessions[k].filename then SessionCuts(decode, dir, m.sessions[k]) else [])
  {
    hide SessionCuts;
    if name == m.sessions[k].filename {
      CutsOfOwner(decode, dir, m, done + {k}, k);
      assert forall l :: !Owns(m, done, l, name);
    } else {
      assert forall l :: Owns(m, done, l, name) <==> Owns(m, done + {k}, l, name);
      if l :| Owns(m, done, l, name) {
        CutsOfOwner(decode, dir, m, done, l);
        CutsOfOwner(decode, dir, m, done + {k}, l);
      }
    }
  }

  predicate NoCuts(decode: Decoder, dir: Dir, m: Meta, done: set<string>) {
    forall k :: k in m.sessions && k in done ==> SessionCuts(decode, dir, m.sessions[k]) == []
  }

  ghost predicate RepairsFor(decode: Decoder, dir: Dir, m: Meta, done: set<string>, repairs: seq<Repair>) {
    && (forall name :: LengthsFor(repairs, name) == CutsOf(decode, dir, m, done, name))
    && (repairs == [] <==> NoCuts(decode, dir, m, done))
  }

  lemma RepairsForOneMore(decode: Decoder, dir: Dir, m: Meta, done: set<string>, repairs: seq<Repair>, k: string)
    requires FilenamesDiffer(m) && k in m.sessions && k !in done
    requires RepairsFor(decode, dir, m, done, repairs)
    ensures RepairsFor(decode, dir, m, done + {k},
                       repairs + RepairsOf(m.sessions[k].filename, SessionCuts(decode, dir, m.sessions[k])))
  {
    hide SessionCuts, CutsOf, FilenamesDiffer, LengthsFor;
    var cuts := SessionCuts(decode, dir, m.sessions[k]);
    forall name
      ensures LengthsFor(repairs + RepairsOf(m.sessions[k].filename, cuts), name)
           == CutsOf(decode, dir, m, done + {k}, name)
    {
      LengthsForAppend(repairs, RepairsOf(m.sessions[k].filename, cuts), name);
      LengthsForOne(m.sessions[k].filename, cuts, name);
      CutsOfOneMore(decode, dir, m, done, k, name);
    }
  }

  /** The ids of the sessions in `done` only. */
  function IdsDone(decode: Decoder, dir: Dir, m: Meta, done: set<string>): Ids {
    map k | k in m.sessions && k in done :: Committed(decode, dir, m.sessions[k]).ids
  }

  lemma IdsOneMore(decode: Decoder, dir: Dir, m: Meta, done: set<string>, all: seq<nat>, k: string)
    requires k in m.sessions && k !in done
    requires Gathered(IdsDone(decode, dir, m, done), all)
    ensures Gathered(IdsDone(decode, dir, m, done + {k}), all + Committed(decode, dir, m.sessions[k]).ids)
  {
    hide Gathered, Committed, Parse;
    var ids := Committed(decode, dir, m.sessions[k]).ids;
    CommittedAscends(decode, dir, m.sessions[k]);
    GatheredMore(IdsDone(decode, dir, m, done), all, k, ids);
    assert IdsDone(decode, dir, m, done + {k}) == IdsDone(decode, dir, m, done)[k := ids];
  }

  lemma CommittedAscends(decode: Decoder, dir: Dir, s: Session)
    ensures Ascending(Committed(decode, dir, s).ids)
  {
    ParsedIdsAscend(decode, Cut(Content(dir, s.filename), s.durableOffset), None);
  }

  /** The metadata sessions after those in `done` were updated. */
  predicate SessionsUpdated(decode: Decoder, dir: Dir, m: Meta, done: set<string>, sessions: map<string, Session>) {
    && sessions.Keys == m.sessions.Keys
    && forall k :: k in m.sessions ==>
         sessions[k] == if k in done then UpdatedSession(decode, dir, m.sessions[k]) else m.sessions[k]
  }

  predicate GoodSoFar(decode: Decoder, dir: Dir, m: Meta, done: set<string>) {
    forall k :: k in m.sessions && k in done ==> SessionGood(decode, dir, m.sessions[k])
  }

  /** What the loop over the sessions has established after `done`. */
  ghost predicate SoFar(decode: Decoder, dir: Dir, m: Meta, done: set<string>, repairs: seq<Repair>,
                        sessions: map<string, Session>, all: seq<nat>) {
    && GoodSoFar(decode, dir, m, done)
    && RepairsFor(decode, dir, m, done, repairs)
    && SessionsUpdated(decode, dir, m, done, sessions)
    && Gathered(IdsDone(decode, dir, m, done), all)
  }

  lemma SoFarStarts(decode: Decoder, dir: Dir, m: Meta)
    ensures SoFar(decode, dir, m, {}, [], m.sessions, [])
  {
    NothingGathered();
    NoRepairs(decode, dir, m);
    assert IdsDone(decode, dir, m, {}) == map[];
  }

  lemma SoFarOneMore(decode: Decoder, dir: Dir, m: Meta, done: set<string>, repairs: seq<Repair>,
                     sessions: map<string, Session>, all: seq<nat>, k: string)
    requires SoFar(decode, dir, m, done, repairs, sessions, all)
    requires FilenamesDiffer(m) && k in m.sessions && k !in done && SessionGood(decode, dir, m.sessions[k])
    ensures SoFar(decode, dir, m, done + {k},
                  repairs + RepairsOf(m.sessions[k].filename, SessionCuts(decode, dir, m.sessions[k])),
                  sessions[k := UpdatedSession(decode, dir, m.sessions[k])],
                  all + Committed(decode, dir, m.sessions[k]).ids)
  {
    hide SessionGood, Gathered, RepairsFor, FilenamesDiffer, Committed, UpdatedSession, SessionCuts;
    RepairsForOneMore(decode, dir, m, done, repairs, k);
    IdsOneMore(decode, dir, m, done, all, k);
  }

  lemma SoFarEnds(decode: Decoder, dir: Dir, m: Meta, repairs: seq<Repair>, sessions: map<string, Session>, all: seq<nat>)
    requires SoFar(decode, dir, m, m.sessions.Keys, repairs, sessions, all)
    ensures SessionsGood(decode, dir, m)
    ensures Gathered(CommittedIds(decode, dir, m), all)
  {
    hide SessionGood, Gathered, RepairsFor, FilenamesDiffer, Committed, UpdatedSession;
    assert IdsDone(decode, dir, m, m.sessions.Keys) == CommittedIds(decode, dir, m);
  }

  method ReadSessions(decode: Decoder, dir: Dir, m: Meta)
    returns (ok: bool, repairs: seq<Repair>, sessions: map<string, Session>, all: seq<nat>)
    requires FilenamesDiffer(m)
    ensures ok <==> SessionsGood(decode, dir, m)
    ensures ok ==> RepairsFor(decode, dir, m, m.sessions.Keys, repairs)
    ensures ok ==> SessionsUpdated(decode, dir, m, m.sessions.Keys, sessions)
    ensures ok ==> Gathered(CommittedIds(decode, dir, m), all)
  {
    ok, repairs, sessions, all := true, [], m.sessions, [];
    var left := m.sessions.Keys;
    ghost var done: set<string> := {};
    SoFarStarts(decode, dir, m);
    hide SessionGood, FilenamesDiffer, Committed, UpdatedSession, SessionCuts, Gathered, RepairsFor, SessionsUpdated;
    while left != {} && ok
      invariant left + done == m.sessions.Keys && left !! done
      invariant ok ==> SoFar(decode, dir, m, done, repairs, sessions, all)
      invariant !ok ==> !SessionsGood(decode, dir, m)
      decreases left
    {
      hide SoFar;
      var k :| k in left;
      var cuts, updated, ids;
      ok, cuts, updated, ids := ReadSession(decode, dir, m.sessions[k]);
      if ok {
        SoFarOneMore(decode, dir, m, done, repairs, sessions, all, k);
        repairs := repairs + RepairsOf(m.sessions[k].filename, cuts);
        sessions, all := sessions[k := updated], all + ids;
      }
      left, done := left - {k}, done + {k};
    }
    if ok {
      assert done == m.sessions.Keys;
      SoFarEnds(decode, dir, m, repairs, sessions, all);
    }
  }

  lemma NoRepairs(decode: Decoder, dir: Dir, m: Meta)
    ensures RepairsFor(decode, dir, m, {}, [])
  {
  }

  // ---------- The whole directory ----------

  method CheckNames(stem: string, dir: Dir, m: Meta) returns (ok: bool)
    ensures ok <==> KnownFiles(stem, dir, m)
  {
    var expected := Filenames(m);
    var left := dir.Keys;
    ok := true;
    while left != {} && ok
      invariant left <= dir.Keys
      invariant ok ==> forall n :: n in dir && n !in left ==> n in expected || ActivityFile(n, stem)
      invariant !ok ==> !KnownFiles(stem, dir, m)
      decreases left
    {
      var name :| name in left;
      ok := name in expected || ActivityFile(name, stem);
      left := left - {name};
    }
  }

  /** The last line feed, searched from the end. */
  method LineEndBefore(b: Bytes) returns (n: nat)
    ensures n == LastLineEnd(b)
  {
    n := |b|;
    assert b[..n] == b;
    while n > 0 && b[n - 1] != NEWLINE
      invariant 0 <= n <= |b|
      invariant LastLineEnd(b) == LastLineEnd(b[..n])
    {
      assert b[..n][..n - 1] == b[..n - 1];
      n := n - 1;
    }
  }

  method ReadActivity(stem: string, dir: Dir, m: Meta) returns (ok: bool, repairs: seq<Repair>, end: nat)
    ensures ok <==> ActivityGood(stem, dir, m)
    ensures ok ==> end == ActivityEnd(stem, dir, m)
    ensures ok ==> repairs == (if ActivityCuts(stem, dir, m) == [] then [] else [Repair(ActivityName(stem), end)])
    ensures ok ==> forall name ::
      LengthsFor(repairs, name) == if name == ActivityName(stem) then ActivityCuts(stem, dir, m) else []
  {
    repairs, end := [], m.activityOffset;
    if ActivityName(stem) !in dir {
      return m.activityOffset == 0, [], 0;
    }
    var bytes := dir[ActivityName(stem)];
    ok := |bytes| >= m.activityOffset;
    if ok {
      end := LineEndBefore(bytes[..m.activityOffset]);
      if end != m.activityOffset || |bytes| > m.activityOffset {
        repairs := [Repair(ActivityName(stem), end)];
      }
    }
  }

  /** The list of repairs is the cuts of the specification. */
  ghost predicate RepairsAre(decode: Decoder, stem: string, dir: Dir, m: Meta, repairs: seq<Repair>) {
    && (forall name :: LengthsFor(repairs, name) == Cuts(decode, stem, dir, m, name))
    && (repairs == [] <==> !NeedsRepair(decode, stem, dir, m))
  }

  lemma RepairsTogether(decode: Decoder, stem: string, dir: Dir, m: Meta, ofSessions: seq<Repair>, ofActivity: seq<Repair>)
    requires Checked(stem, m)
    requires RepairsFor(decode, dir, m, m.sessions.Keys, ofSessions)
    requires forall name ::
      LengthsFor(ofActivity, name) == if name == ActivityName(stem) then ActivityCuts(stem, dir, m) else []
    requires ofActivity == [] <==> ActivityCuts(stem, dir, m) == []
    ensures RepairsAre(decode, stem, dir, m, ofSessions + ofActivity)
  {
    hide ActivityCuts, SessionCuts, LengthsFor, FilenamesDiffer;
    NoSessionOwnsActivity(stem, m);
    forall name
      ensures LengthsFor(ofSessions + ofActivity, name) == Cuts(decode, stem, dir, m, name)
    {
      LengthsForAppend(ofSessions, ofActivity, name);
      CutsAreCutsOf(decode, stem, dir, m, name);
    }
  }

  lemma CutsAreCutsOf(decode: Decoder, stem: string, dir: Dir, m: Meta, name: string)
    requires Checked(stem, m)
    ensures Cuts(decode, stem, dir, m, name)
         == CutsOf(decode, dir, m, m.sessions.Keys, name)
          + (if name == ActivityName(stem) then ActivityCuts(stem, dir, m) else [])
  {
    hide ActivityCuts, SessionCuts;
    NoSessionOwnsActivity(stem, m);
    if k :| k in m.sessions && m.sessions[k].filename == name {
      CutsOfOwner(decode, dir, m, m.sessions.Keys, k);
    } else {
      assert forall l :: !Owns(m, m.sessions.Keys, l, name);
    }
  }

  lemma NoSessionOwnsActivity(stem: string, m: Meta)
    requires Checked(stem, m)
    ensures forall k :: k in m.sessions ==> m.sessions[k].filename != ActivityName(stem)
  {
    hide Names.Derive;
    forall k | k in m.sessions
      ensures m.sessions[k].filename != ActivityName(stem)
    {
      ActivityIsNotASession(stem, Names.Derive(k).value);
    }
  }

  /**
   * Validation accepts exactly when every file passes and the committed ids of all sessions
   * are 1..n, and the metadata agrees or something is repaired.
   */
  method ValidateFiles(decode: Decoder, stem: string, dir: Dir, m: Meta) returns (v: Verdict)
    requires Checked(stem, m)
    ensures v.Agreement? <==> exists n :: Valid(decode, stem, dir, m, n)
    ensures v.Agreement? ==> RepairsAre(decode, stem, dir, m, v.repairs)
    ensures v.Agreement? ==> exists n :: Valid(decode, stem, dir, m, n) && v.updated == Updated(decode, stem, dir, m, n)
  {
    assert FilenamesDiffer(m);
    hide Partition, Lists, Gathered, SessionsGood, KnownFiles, ActivityGood, NeedsRepair, RepairsFor, RepairsAre,
         Checked, Filenames;
    var known := CheckNames(stem, dir, m);
    if !known {
      return Contradictory;
    }
    var good, repairs, sessions, all := ReadSessions(decode, dir, m);
    if !good {
      return Contradictory;
    }
    var fits, ofActivity, end := ReadActivity(stem, dir, m);
    if !fits {
      return Contradictory;
    }
    RepairsTogether(decode, stem, dir, m, repairs, ofActivity);
    v := Count(decode, stem, dir, m, repairs + ofActivity, sessions, end, all);
  }

  /** The ids of all files are sorted and compared with 1..n, and the counts with the metadata. */
  method Count(decode: Decoder, stem: string, dir: Dir, m: Meta, repairs: seq<Repair>, sessions: map<string, Session>,
               end: nat, all: seq<nat>)
    returns (v: Verdict)
    requires KnownFiles(stem, dir, m) && SessionsGood(decode, dir, m) && ActivityGood(stem, dir, m)
    requires RepairsAre(decode, stem, dir, m, repairs)
    requires SessionsUpdated(decode, dir, m, m.sessions.Keys, sessions)
    requires end == ActivityEnd(stem, dir, m)
    requires Gathered(CommittedIds(decode, dir, m), all)
    ensures v.Agreement? <==> exists n :: Valid(decode, stem, dir, m, n)
    ensures v.Agreement? ==> RepairsAre(decode, stem, dir, m, v.repairs)
    ensures v.Agreement? ==> exists n :: Valid(decode, stem, dir, m, n) && v.updated == Updated(decode, stem, dir, m, n)
  {
    hide Partition, Lists, Gathered, SessionsGood, KnownFiles, ActivityGood, NeedsRepair, ActivityEnd, CommittedIds,
         UpdatedSession;
    forall n: nat
      ensures Lists(all, n) <==> Partition(CommittedIds(decode, dir, m), n)
    {
      GatheredDecides(CommittedIds(decode, dir, m), all, n);
    }
    var numbered := IsNumbered(all);
    if !numbered {
      return Contradictory;
    }
    forall n: nat | Partition(CommittedIds(decode, dir, m), n)
      ensures n == |all|
    {
      PartitionIsUnique(CommittedIds(decode, dir, m), n, |all|);
    }
    var last := LastId(Sorted(all));
    LastIsCount(all);
    if repairs == [] && (m.frameCount != |all| || m.lastFrameId != last) {
      return Contradictory;
    }
    assert Valid(decode, stem, dir, m, |all|);
    var updated := m;
    if repairs != [] {
      updated := m.(sessions := sessions, activityOffset := end, frameCount := |all|, lastFrameId := last, hasFrames := |all| > 0);
      assert sessions == map k | k in m.sessions :: UpdatedSession(decode, dir, m.sessions[k]);
    }
    return Agreement(repairs, updated);
  }

  lemma LastIsCount(all: seq<nat>)
    requires Lists(all, |all|)
    ensures LastId(Sorted(all)) == |all|
  {
    SortedInOrder(all);
    SameElements(all, Sorted(all));
    ListsCountUp(Sorted(all), |all|);
  }
}
