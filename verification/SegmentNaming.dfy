/** The search for the name of a new segment: the first second from now on that nothing is named after. */
module SegmentNaming {
  import opened Prelude
  import opened Records
  import opened SegmentLog
  import Text

  /** One entry of a directory listing. */
  datatype Entry = Name(name: string) | NotText | Broken

  /** What looking into a day's directory gives. */
  datatype Scan = Unavailable | Unreadable | Entries(entries: seq<Entry>)

  /** Listings by day; the directory of any other day is created empty. */
  type Captures = map<nat, Scan>

  const DAY := 86400

  function ScanOf(captures: Captures, day: nat): Scan {
    if day in captures then captures[day] else Entries([])
  }

  predicate StartsWith(e: Entry, stem: string) {
    e.Name? && stem <= e.name
  }

  /** Some entry starts with the stem, and the listing gets that far. */
  predicate TakenBy(entries: seq<Entry>, stem: string) {
    exists i :: 0 <= i < |entries| && StartsWith(entries[i], stem) && forall j :: 0 <= j < i ==> !entries[j].Broken?
  }

  /** The listing breaks before any entry starts with the stem. */
  predicate BreaksFor(entries: seq<Entry>, stem: string) {
    exists i :: 0 <= i < |entries| && entries[i].Broken? && forall j :: 0 <= j < i ==> !StartsWith(entries[j], stem)
  }

  /** HHMMSS of a number of seconds. */
  function Stem(seconds: nat): string {
    Clock(seconds / 3600 % 24, seconds / 60 % 60, seconds % 60)
  }

  function Clock(h: nat, m: nat, s: nat): string {
    Text.Padded(h, 2) + Text.Padded(m, 2) + Text.Padded(s, 2)
  }

  lemma TwoDigits(n: nat)
    requires n < 100
    ensures |Text.Padded(n, 2)| == 2
    ensures Text.Padded(n, 2)[0] == '0' + (n / 10) as char && Text.Padded(n, 2)[1] == '0' + (n % 10) as char
  {
    if n >= 10 {
      assert Text.Decimal(n) == Text.Decimal(n / 10) + [Text.Digit(n % 10)];
    }
  }

  /** A stem is a time name, and reads back as the clock it was made from. */
  lemma ClockIsTimeName(h: nat, m: nat, s: nat)
    requires h < 24 && m < 60 && s < 60
    ensures TimeName(Clock(h, m, s))
    ensures Two(Clock(h, m, s), 0) == h && Two(Clock(h, m, s), 2) == m && Two(Clock(h, m, s), 4) == s
  {
    TwoDigits(h);
    TwoDigits(m);
    TwoDigits(s);
  }

  /** Seconds since the first day began. */
  function Seconds(day: nat, h: nat, m: nat, s: nat): nat {
    ((day * 24 + h) * 60 + m) * 60 + s
  }

  function DayOf(t: nat): nat { t / DAY }

  lemma StemOfClock(day: nat, h: nat, m: nat, s: nat)
    requires h < 24 && m < 60 && s < 60
    ensures DayOf(Seconds(day, h, m, s)) == day && Stem(Seconds(day, h, m, s)) == Clock(h, m, s)
  {
    hide Clock;
    var t := Seconds(day, h, m, s);
    assert t / 60 == (day * 24 + h) * 60 + m;
    assert t / 3600 == t / 60 / 60 == day * 24 + h;
    assert t / DAY == t / 3600 / 24 == day;
  }

  /** Within one day, no two seconds share a stem. */
  lemma StemsDiffer(a: nat, b: nat)
    requires DayOf(a) == DayOf(b) && Stem(a) == Stem(b)
    ensures a == b
  {
    ClockIsTimeName(a / 3600 % 24, a / 60 % 60, a % 60);
    ClockIsTimeName(b / 3600 % 24, b / 60 % 60, b % 60);
    Reassemble(a);
    Reassemble(b);
  }

  lemma Reassemble(a: nat)
    ensures a == ((DayOf(a) * 24 + a / 3600 % 24) * 60 + a / 60 % 60) * 60 + a % 60
  {
    assert a / 60 / 60 == a / 3600 && a / 3600 / 24 == DayOf(a);
  }

  /** Second `t` is named after by some entry of its day. */
  predicate TakenAt(captures: Captures, t: nat) {
    ScanOf(captures, DayOf(t)).Entries? && TakenBy(ScanOf(captures, DayOf(t)).entries, Stem(t))
  }

  predicate FreeAt(captures: Captures, t: nat) {
    && ScanOf(captures, DayOf(t)).Entries?
    && !TakenBy(ScanOf(captures, DayOf(t)).entries, Stem(t)) && !BreaksFor(ScanOf(captures, DayOf(t)).entries, Stem(t))
  }

  predicate AllTaken(captures: Captures, from: nat, to: nat) {
    forall t: nat :: from <= t < to ==> TakenAt(captures, t)
  }

  /**
   * Every second from the natural one up to `t` is taken. Second `t` is free and chosen, or its
   * directory cannot be listed and the natural name is used after all.
   */
  predicate Search(captures: Captures, natural: nat, t: nat, day: nat, stem: string) {
    && natural <= t && AllTaken(captures, natural, t) && !TakenAt(captures, t)
    && if FreeAt(captures, t) then day == DayOf(t) && stem == Stem(t) else day == DayOf(natural) && stem == Stem(natural)
  }

  /** The outcome is the only one there can be. */
  lemma SearchEndsOnce(captures: Captures, natural: nat, t: nat, u: nat, day: nat, stem: string, otherDay: nat, other: string)
    requires Search(captures, natural, t, day, stem) && Search(captures, natural, u, otherDay, other)
    ensures t == u && day == otherDay && stem == other
  {
    hide TakenAt, FreeAt, Stem, DayOf;
    NotPastAFreeSecond(captures, natural, t, u);
    NotPastAFreeSecond(captures, natural, u, t);
  }

  lemma NotPastAFreeSecond(captures: Captures, natural: nat, t: nat, u: nat)
    requires natural <= t && !TakenAt(captures, t) && AllTaken(captures, natural, u)
    ensures u <= t
  {
  }

  lemma TakenOneMore(captures: Captures, from: nat, to: nat)
    requires AllTaken(captures, from, to) && TakenAt(captures, to)
    ensures AllTaken(captures, from, to + 1)
  {
  }

  method ScanEntries(entries: seq<Entry>, stem: string) returns (taken: bool, broken: bool)
    ensures taken == TakenBy(entries, stem) && (!taken ==> broken == BreaksFor(entries, stem))
  {
    taken, broken := false, false;
    var i := 0;
    while i < |entries| && !taken && !broken
      invariant 0 <= i <= |entries|
      invariant !taken && !broken ==> forall j :: 0 <= j < i ==> !entries[j].Broken? && !StartsWith(entries[j], stem)
      invariant taken ==> TakenBy(entries, stem)
      invariant broken ==> !taken && BreaksFor(entries, stem) && !TakenBy(entries, stem)
    {
      if entries[i].Broken? {
        broken := true;
      } else if StartsWith(entries[i], stem) {
        taken := true;
      }
      i := i + 1;
    }
  }

  // ---------- Termination ----------

  /** Every name that can make a second of its day taken. */
  ghost function AllHeads(captures: Captures): set<(nat, string)> {
    set day, i | day in captures && captures[day].Entries? && 0 <= i < |captures[day].entries|
      && captures[day].entries[i].Name? && |captures[day].entries[i].name| >= 6 :: (day, captures[day].entries[i].name[..6])
  }

  ghost predicate Ahead(captures: Captures, t: nat, left: set<(nat, string)>) {
    forall u: nat :: t <= u && TakenAt(captures, u) ==> (DayOf(u), Stem(u)) in left
  }

  lemma TakenSecondsHaveHeads(captures: Captures, t: nat)
    ensures Ahead(captures, t, AllHeads(captures))
  {
    forall u: nat | t <= u && TakenAt(captures, u)
      ensures (DayOf(u), Stem(u)) in AllHeads(captures)
    {
      var entries := ScanOf(captures, DayOf(u)).entries;
      var i :| 0 <= i < |entries| && StartsWith(entries[i], Stem(u));
      ClockIsTimeName(u / 3600 % 24, u / 60 % 60, u % 60);
      assert entries[i].name[..6] == Stem(u);
    }
  }

  lemma NextSecond(captures: Captures, t: nat, left: set<(nat, string)>)
    requires Ahead(captures, t, left) && TakenAt(captures, t)
    ensures Ahead(captures, t + 1, left - {(DayOf(t), Stem(t))}) && left - {(DayOf(t), Stem(t))} < left
  {
    hide Stem, TakenAt, DayOf;
    forall u: nat | t + 1 <= u && TakenAt(captures, u)
      ensures (DayOf(u), Stem(u)) in left - {(DayOf(t), Stem(t))}
    {
      if DayOf(u) == DayOf(t) && Stem(u) == Stem(t) {
        StemsDiffer(u, t);
      }
    }
  }

  /** The clock one second later, carried into minutes, hours and the next day. */
  method Tick(day: nat, h: nat, m: nat, s: nat) returns (day': nat, h': nat, m': nat, s': nat)
    requires h < 24 && m < 60 && s < 60
    ensures h' < 24 && m' < 60 && s' < 60
    ensures Seconds(day', h', m', s') == Seconds(day, h, m, s) + 1
  {
    day', h', m', s' := day, h, m, s;
    if s' < 59 {
      s' := s' + 1;
    } else {
      s' := 0;
      if m' < 59 {
        m' := m' + 1;
      } else {
        m' := 0;
        if h' < 23 {
          h' := h' + 1;
        } else {
          h', day' := 0, day' + 1;
        }
      }
    }
  }

  /** The loop of the source over the seconds from the natural one on. */
  method ChooseName(captures: Captures, day: nat, h: nat, m: nat, s: nat) returns (r: Result<(nat, string), ()>, ghost end: nat)
    requires h < 24 && m < 60 && s < 60
    ensures r.Err? <==> ScanOf(captures, day).Unavailable?
    ensures r.Ok? ==> Search(captures, Seconds(day, h, m, s), end, r.value.0, r.value.1)
  {
    ghost var natural := Seconds(day, h, m, s);
    StemOfClock(day, h, m, s);
    var d, hh, mm, ss, bumped := day, h, m, s, false;
    ghost var left := AllHeads(captures);
    end := natural;
    TakenSecondsHaveHeads(captures, natural);
    assert AllTaken(captures, natural, natural);
    hide Stem, TakenAt, FreeAt, Ahead, Clock, DayOf, Seconds, AllTaken, Search, ScanOf, AllHeads;
    var verdict, name := Occupied, "";
    while verdict == Occupied
      invariant hh < 24 && mm < 60 && ss < 60 && natural <= end
      invariant verdict == Occupied ==> end == Seconds(d, hh, mm, ss) && Ahead(captures, end, left)
      invariant verdict == Occupied ==> (bumped <==> end > natural) && (!bumped ==> d == day)
      invariant bumped ==> !ScanOf(captures, day).Unavailable?
      invariant AllTaken(captures, natural, end)
      invariant verdict != Occupied ==> Judged(captures, natural, end, day, d, bumped, verdict, name)
      decreases left, verdict == Occupied
    {
      verdict, name := LookAt(captures, d, hh, mm, ss);
      if verdict == Occupied {
        NextSecond(captures, end, left);
        TakenOneMore(captures, natural, end);
        left := left - {(DayOf(end), Stem(end))};
        bumped, end := true, end + 1;
        d, hh, mm, ss := Tick(d, hh, mm, ss);
      }
    }
    if verdict == NoDirectory && !bumped {
      return Err(()), end;
    }
    r := Ok(if verdict == Chosen then (d, name) else (day, Clock(h, m, s)));
    JudgedEndsSearch(captures, natural, end, day, d, bumped, verdict, name, Clock(h, m, s));
  }

  /** What the last look decided. */
  ghost predicate Judged(captures: Captures, natural: nat, t: nat, day: nat, d: nat, bumped: bool, v: Verdict, name: string) {
    && !TakenAt(captures, t) && (bumped <==> t > natural) && (!bumped ==> d == day)
    && (v == Chosen <==> FreeAt(captures, t)) && (v == NoDirectory <==> ScanOf(captures, d).Unavailable?)
    && name == Stem(t) && d == DayOf(t)
  }

  lemma JudgedEndsSearch(captures: Captures, natural: nat, t: nat, day: nat, d: nat, bumped: bool, v: Verdict, name: string,
                         fallback: string)
    requires Judged(captures, natural, t, day, d, bumped, v, name) && natural <= t && AllTaken(captures, natural, t)
    requires DayOf(natural) == day && Stem(natural) == fallback
    ensures if v == Chosen then Search(captures, natural, t, d, name) else Search(captures, natural, t, day, fallback)
  {
    hide Stem, DayOf, TakenAt, FreeAt, AllTaken;
  }

  datatype Verdict = Chosen | Occupied | NoDirectory | NoListing

  /** One second: its directory, and whether an entry is named after it. */
  method LookAt(captures: Captures, d: nat, h: nat, m: nat, s: nat) returns (v: Verdict, name: string)
    requires h < 24 && m < 60 && s < 60
    ensures name == Stem(Seconds(d, h, m, s)) && DayOf(Seconds(d, h, m, s)) == d
    ensures v == Chosen <==> FreeAt(captures, Seconds(d, h, m, s))
    ensures v == Occupied <==> TakenAt(captures, Seconds(d, h, m, s))
    ensures v == NoDirectory <==> ScanOf(captures, d).Unavailable?
  {
    StemOfClock(d, h, m, s);
    hide Stem, Clock, DayOf, Seconds, TakenBy, BreaksFor;
    name := Clock(h, m, s);
    match ScanOf(captures, d) {
      case Unavailable => v := NoDirectory;
      case Unreadable => v := NoListing;
      case Entries(entries) =>
        var taken, broken := ScanEntries(entries, name);
        v := if taken then Occupied else if broken then NoListing else Chosen;
    }
  }

  /** A free name collides with nothing the segment will create: not its directory, not its metadata, not its final name. */
  lemma FreeNameDoesNotCollide(captures: Captures, t: nat, seconds: nat)
    requires FreeAt(captures, t)
    ensures var entries := ScanOf(captures, DayOf(t)).entries;
      && Name(IncompleteName(Stem(t))) !in entries && Name(MetaName(Stem(t))) !in entries
      && Name(FinalizedName(Stem(t), seconds)) !in entries
  {
    var stem, entries := Stem(t), ScanOf(captures, DayOf(t)).entries;
    forall i | 0 <= i < |entries|
      ensures !StartsWith(entries[i], stem)
    {
      FreeMeansNoPrefix(entries, stem, i);
    }
    assert stem <= IncompleteName(stem) && stem <= MetaName(stem) && stem <= FinalizedName(stem, seconds);
  }

  lemma {:induction false} FreeMeansNoPrefix(entries: seq<Entry>, stem: string, i: nat)
    requires !TakenBy(entries, stem) && !BreaksFor(entries, stem) && i < |entries|
    ensures !StartsWith(entries[i], stem) && !entries[i].Broken?
    decreases i
  {
    forall j: nat | j < i
      ensures !StartsWith(entries[j], stem) && !entries[j].Broken?
    {
      FreeMeansNoPrefix(entries, stem, j);
    }
  }
}
