/** The `output_sessions` patterns: greedy matching agrees with the meaning of '*'. */
module Glob {
  import opened Prelude
  import Text

  /** What a pattern means: '*' stands for any run of characters, everything else for itself. */
  predicate Matches(pattern: string, session: string) {
    if pattern == "" then session == ""
    else if pattern[0] == '*' then
      exists k :: 0 <= k <= |session| && Matches(pattern[1..], session[k..])
    else
      session != "" && session[0] == pattern[0] && Matches(pattern[1..], session[1..])
  }

  /** The same, on the pieces between the stars. */
  predicate MatchesParts(parts: seq<string>, session: string)
    requires |parts| > 0
    decreases parts, 0
  {
    if |parts| == 1 then session == parts[0]
    else parts[0] <= session && Floats(parts[1..], session[|parts[0]|..])
  }

  /** Some suffix of `rest` matches the pieces. */
  predicate Floats(parts: seq<string>, rest: string)
    requires |parts| > 0
    decreases parts, 1
  {
    exists k :: 0 <= k <= |rest| && MatchesParts(parts, rest[k..])
  }

  lemma {:induction false} PartsMeanThePattern(pattern: string, session: string)
    ensures Matches(pattern, session) <==> MatchesParts(Text.Split(pattern, '*'), session)
    decreases |pattern|
  {
    if pattern != "" {
      var parts := Text.Split(pattern, '*');
      var rest := Text.Split(pattern[1..], '*');
      if pattern[0] == '*' {
        assert parts[1..] == rest && session[0..] == session;
        forall k | 0 <= k <= |session|
          ensures Matches(pattern[1..], session[k..]) <==> MatchesParts(rest, session[k..])
        {
          PartsMeanThePattern(pattern[1..], session[k..]);
        }
      } else if session != "" && session[0] == pattern[0] {
        PartsMeanThePattern(pattern[1..], session[1..]);
        assert session == [session[0]] + session[1..];
        assert parts[0] == [session[0]] + rest[0];
        if |parts| > 1 {
          assert parts[1..] == rest[1..];
          if rest[0] <= session[1..] || parts[0] <= session {
            assert session[1..][..|rest[0]|] == session[1..|parts[0]|];
            assert session[|parts[0]|..] == session[1..][|rest[0]|..];
          }
        }
      }
    }
  }

  /** `part` occurs in `s` at position `i`. */
  predicate OccursAt(s: string, part: string, i: nat) {
    i + |part| <= |s| && s[i..i + |part|] == part
  }

  /** The leftmost occurrence. */
  function Find(s: string, part: string): (r: Option<nat>)
    ensures r.Some? ==> OccursAt(s, part, r.value) && forall j :: 0 <= j < r.value ==> !OccursAt(s, part, j)
    ensures r.None? ==> forall j: nat :: !OccursAt(s, part, j)
  {
    FindFrom(s, part, 0)
  }

  function FindFrom(s: string, part: string, from: nat): (r: Option<nat>)
    requires from <= |s| + 1
    requires forall j :: 0 <= j < from ==> !OccursAt(s, part, j)
    ensures r.Some? ==> OccursAt(s, part, r.value) && forall j :: 0 <= j < r.value ==> !OccursAt(s, part, j)
    ensures r.None? ==> forall j: nat :: !OccursAt(s, part, j)
    decreases |s| + 1 - from
  {
    if from > |s| then None
    else if OccursAt(s, part, from) then Some(from)
    else FindFrom(s, part, from + 1)
  }

  /** Taking the leftmost occurrence of a middle piece never loses a match. */
  lemma LeftmostSuffices(parts: seq<string>, rest: string)
    requires |parts| > 1
    ensures var at := Find(rest, parts[0]);
      Floats(parts, rest) <==> at.Some? && Floats(parts[1..], rest[at.value + |parts[0]|..])
  {
    var at := Find(rest, parts[0]);
    if Floats(parts, rest) {
      var k :| 0 <= k <= |rest| && MatchesParts(parts, rest[k..]);
      EarlierIsNoWorse(parts, rest, k);
    }
    if at.Some? && Floats(parts[1..], rest[at.value + |parts[0]|..]) {
      var i := at.value;
      assert rest[i..][..|parts[0]|] == rest[i..i + |parts[0]|];
      assert rest[i..][|parts[0]|..] == rest[i + |parts[0]|..];
      assert MatchesParts(parts, rest[i..]);
    }
  }

  /** Whatever follows a later occurrence also follows the leftmost one. */
  lemma EarlierIsNoWorse(parts: seq<string>, rest: string, k: nat)
    requires |parts| > 1 && k <= |rest| && MatchesParts(parts, rest[k..])
    ensures var at := Find(rest, parts[0]);
      at.Some? && Floats(parts[1..], rest[at.value + |parts[0]|..])
  {
    var part, at := parts[0], Find(rest, parts[0]);
    assert rest[k..][..|part|] == rest[k..k + |part|];
    assert OccursAt(rest, part, k) && at.value <= k;
    var after := rest[k..][|part|..];
    assert Floats(parts[1..], after);
    var j :| 0 <= j <= |after| && MatchesParts(parts[1..], after[j..]);
    assert after[j..] == rest[at.value + |part|..][k - at.value + j..];
  }

  method MatchesSessionPattern(pattern: string, session: string) returns (matched: bool)
    ensures matched <==> Matches(pattern, session)
  {
    PartsMeanThePattern(pattern, session);
    var parts := Text.Split(pattern, '*');
    if !(parts[0] <= session) {
      return false;
    }
    var rest := session[|parts[0]|..];
    if |parts| == 1 {
      return rest == "";
    }
    var i := 1;
    while i < |parts| - 1
      invariant 1 <= i < |parts|
      invariant Matches(pattern, session) <==> Floats(parts[i..], rest)
    {
      LeftmostSuffices(parts[i..], rest);
      assert parts[i..][1..] == parts[i + 1..];
      match Find(rest, parts[i]) {
        case Some(index) => rest := rest[index + |parts[i]|..];
        case None => return false;
      }
      i := i + 1;
    }
    var last := parts[|parts| - 1];
    assert parts[i..] == [last];
    matched := |rest| >= |last| && rest[|rest| - |last|..] == last;
    assert matched ==> MatchesParts([last], rest[|rest| - |last|..]);
  }
}
