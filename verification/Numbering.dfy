/** Deciding, by sorting, whether the frame ids of all files are 1..n, each once. */
module Numbering {
  import opened Records
  import Jsonl

  predicate NoDuplicates(a: seq<nat>) {
    forall v :: v in a ==> multiset(a)[v] <= 1
  }

  /** `a` lists 1..n, each once, in any order. */
  ghost predicate Lists(a: seq<nat>, n: nat) {
    NoDuplicates(a) && forall v: nat :: v in a <==> 1 <= v <= n
  }

  predicate InOrder(a: seq<nat>) {
    forall i, j :: 0 <= i < j < |a| ==> a[i] <= a[j]
  }

  function Insert(a: seq<nat>, v: nat): (s: seq<nat>)
    ensures multiset(s) == multiset(a) + multiset{v}
  {
    if a == [] || v <= a[0] then [v] + a
    else
      assert a == [a[0]] + a[1..];
      [a[0]] + Insert(a[1..], v)
  }

  function Sorted(a: seq<nat>): (s: seq<nat>)
    ensures multiset(s) == multiset(a)
  {
    if a == [] then []
    else
      assert a == a[..|a| - 1] + [a[|a| - 1]];
      Insert(Sorted(a[..|a| - 1]), a[|a| - 1])
  }

  lemma PrependInOrder(first: nat, rest: seq<nat>)
    requires InOrder(rest) && forall v :: v in rest ==> first <= v
    ensures InOrder([first] + rest)
  {
    assert forall i :: 0 <= i < |rest| ==> rest[i] in rest;
  }

  lemma {:induction false} InsertInOrder(a: seq<nat>, v: nat)
    requires InOrder(a)
    ensures InOrder(Insert(a, v))
  {
    if a != [] && v > a[0] {
      InsertInOrder(a[1..], v);
      forall x | x in Insert(a[1..], v)
        ensures a[0] <= x
      {
        assert x in multiset(Insert(a[1..], v));
      }
      PrependInOrder(a[0], Insert(a[1..], v));
    }
  }

  lemma {:induction false} SortedInOrder(a: seq<nat>)
    ensures InOrder(Sorted(a))
  {
    if a != [] {
      SortedInOrder(a[..|a| - 1]);
      InsertInOrder(Sorted(a[..|a| - 1]), a[|a| - 1]);
    }
  }

  /** Sorts the ids and compares each with its position. */
  method IsNumbered(a: seq<nat>) returns (ok: bool)
    ensures ok <==> exists n :: Lists(a, n)
    ensures ok ==> Lists(a, |a|)
  {
    var s := Sorted(a);
    SortedInOrder(a);
    SameElements(a, s);
    var i := 0;
    while i < |s| && s[i] == i + 1
      invariant 0 <= i <= |s|
      invariant forall j :: 0 <= j < i ==> s[j] == j + 1
    {
      i := i + 1;
    }
    ok := i == |s|;
    if ok {
      CountingUpLists(s);
      assert Lists(a, |a|);
    }
    if n :| Lists(a, n) {
      ListsCountUp(s, n);
    }
  }

  lemma SameElements(a: seq<nat>, s: seq<nat>)
    requires multiset(a) == multiset(s)
    ensures |a| == |s|
    ensures forall n :: Lists(a, n) <==> Lists(s, n)
  {
    assert |multiset(a)| == |a| && |multiset(s)| == |s|;
    assert forall v :: v in a <==> v in multiset(a);
    assert forall v :: v in s <==> v in multiset(s);
  }

  lemma {:induction false} CountingUpLists(s: seq<nat>)
    requires forall j :: 0 <= j < |s| ==> s[j] == j + 1
    ensures Lists(s, |s|)
  {
    if s != [] {
      var init, last := s[..|s| - 1], s[|s| - 1];
      CountingUpLists(init);
      assert s == init + [last];
      assert last !in init;
      assert forall v :: v in s <==> v in init || v == last;
      assert forall v :: multiset(s)[v] == multiset(init)[v] + (if v == last then 1 else 0);
    }
  }

  /** In order without duplicates is strictly in order. */
  lemma StrictlyInOrder(s: seq<nat>)
    requires InOrder(s) && NoDuplicates(s)
    ensures Jsonl.Ascending(s)
  {
    forall i, j | 0 <= i < j < |s|
      ensures s[i] < s[j]
    {
      assert s == s[..j] + s[j..];
      assert s[i] in s[..j] && s[j] in s[j..];
      assert multiset(s)[s[i]] == multiset(s[..j])[s[i]] + multiset(s[j..])[s[i]];
    }
  }

  lemma ListsCountUp(s: seq<nat>, n: nat)
    requires InOrder(s) && Lists(s, n)
    ensures |s| == n && forall j :: 0 <= j < |s| ==> s[j] == j + 1
  {
    StrictlyInOrder(s);
    AscendingCountsUp(s, n);
  }

  lemma {:induction false} AscendingCountsUp(s: seq<nat>, n: nat)
    requires Jsonl.Ascending(s) && forall v: nat :: v in s <==> 1 <= v <= n
    ensures |s| == n && forall j :: 0 <= j < |s| ==> s[j] == j + 1
    decreases n
  {
    assert s != [] ==> s[0] in s;
    if n > 0 {
      assert n in s;
      var init := s[..|s| - 1];
      var last := s[|s| - 1];
      assert last in s;
      assert last == n;
      assert s == init + [last];
      assert forall v :: v in s <==> v in init || v == last;
      AscendingCountsUp(init, n - 1);
    }
  }

  // ---------- Ids of several files ----------

  /** `a` lists the ids of all files one after the other. */
  ghost predicate Gathered(ids: Ids, a: seq<nat>) {
    && (forall v: nat :: v in a <==> Present(ids, v))
    && (NoDuplicates(a) <==> Disjoint(ids))
  }

  lemma NothingGathered()
    ensures Gathered(map[], [])
  {
    assert forall v: nat :: !Present(map[], v);
  }

  lemma GatheredMore(ids: Ids, a: seq<nat>, k: string, more: seq<nat>)
    requires Gathered(ids, a) && k !in ids && Jsonl.Ascending(more)
    ensures Gathered(ids[k := more], a + more)
  {
    PresentMore(ids, k, more);
    AscendingHasNoDuplicates(more);
    NoDuplicatesTogether(a, more);
    DisjointMore(ids, k, more);
    assert forall v: nat :: v in a + more <==> v in a || v in more;
  }

  lemma PresentMore(ids: Ids, k: string, more: seq<nat>)
    requires k !in ids
    ensures forall v: nat :: Present(ids[k := more], v) <==> Present(ids, v) || v in more
  {
    var after := ids[k := more];
    forall v: nat
      ensures Present(after, v) <==> Present(ids, v) || v in more
    {
      if Present(after, v) {
        var l, i: nat :| IdAt(after, l, i, v);
        assert l != k ==> IdAt(ids, l, i, v);
      }
      if Present(ids, v) {
        var l, i: nat :| IdAt(ids, l, i, v);
        assert IdAt(after, l, i, v);
      }
      if v in more {
        var i: nat :| i < |more| && more[i] == v;
        assert IdAt(after, k, i, v);
      }
    }
  }

  lemma AscendingHasNoDuplicates(more: seq<nat>)
    requires Jsonl.Ascending(more)
    ensures NoDuplicates(more)
  {
    if more != [] {
      var init, last := more[..|more| - 1], more[|more| - 1];
      AscendingHasNoDuplicates(init);
      assert more == init + [last];
      assert last !in init;
      assert forall v :: multiset(more)[v] == multiset(init)[v] + (if v == last then 1 else 0);
    }
  }

  lemma NoDuplicatesTogether(a: seq<nat>, b: seq<nat>)
    requires NoDuplicates(b)
    ensures NoDuplicates(a + b) <==> NoDuplicates(a) && forall v :: v in a ==> v !in b
  {
    forall v
      ensures multiset(a + b)[v] == multiset(a)[v] + multiset(b)[v]
      ensures v in a <==> multiset(a)[v] > 0
      ensures v in b <==> multiset(b)[v] > 0
    {
    }
    if NoDuplicates(a + b) {
      forall v | v in a
        ensures v !in b && multiset(a)[v] <= 1
      {
        assert v in a + b;
      }
    }
  }

  lemma DisjointMore(ids: Ids, k: string, more: seq<nat>)
    requires k !in ids && Jsonl.Ascending(more)
    ensures Disjoint(ids[k := more]) <==> Disjoint(ids) && forall v :: v in more ==> !Present(ids, v)
  {
    var after := ids[k := more];
    if Disjoint(after) {
      forall l, i: nat, p, j: nat, v: nat | IdAt(ids, l, i, v) && IdAt(ids, p, j, v)
        ensures l == p && i == j
      {
        assert IdAt(after, l, i, v) && IdAt(after, p, j, v);
      }
      forall v | v in more
        ensures !Present(ids, v)
      {
        var i: nat :| i < |more| && more[i] == v;
        assert IdAt(after, k, i, v);
        forall l, j: nat
          ensures !IdAt(ids, l, j, v)
        {
          assert IdAt(ids, l, j, v) ==> IdAt(after, l, j, v);
        }
      }
    }
    if Disjoint(ids) && forall v :: v in more ==> !Present(ids, v) {
      forall l, i: nat, p, j: nat, v: nat | IdAt(after, l, i, v) && IdAt(after, p, j, v)
        ensures l == p && i == j
      {
        if l != k {
          assert IdAt(ids, l, i, v) && Present(ids, v);
        }
        if p != k {
          assert IdAt(ids, p, j, v) && Present(ids, v);
        }
      }
    }
  }

  /** The sorted comparison decides exactly whether the files partition 1..n. */
  lemma GatheredDecides(ids: Ids, a: seq<nat>, n: nat)
    requires Gathered(ids, a)
    ensures Lists(a, n) <==> Partition(ids, n)
  {
    if Lists(a, n) {
      forall k, i: nat, v: nat | IdAt(ids, k, i, v)
        ensures 1 <= v <= n
      {
        assert Present(ids, v);
      }
    }
    if Partition(ids, n) {
      forall v: nat
        ensures v in a <==> 1 <= v <= n
      {
        if v in a {
          var k, i: nat :| IdAt(ids, k, i, v);
        }
      }
    }
  }
}
