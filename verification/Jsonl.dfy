/** JSONL content: whole records, torn tails, and the frame ids a recorded prefix holds. */
module Jsonl {
  import opened Prelude

  /** Reads one line, without its line feed, as a JSON object with an unsigned `frame_id`. */
  type Decoder = Bytes -> Option<nat>

  datatype Parsed = Parsed(offset: nat, ids: seq<nat>, torn: bool)

  function FirstNewline(b: Bytes): (r: Option<nat>)
    ensures r.Some? ==> r.value < |b| && b[r.value] == NEWLINE && forall i :: 0 <= i < r.value ==> b[i] != NEWLINE
    ensures r.None? ==> NEWLINE !in b
  {
    if b == [] then None
    else if b[0] == NEWLINE then Some(0)
    else
      match FirstNewline(b[1..])
      case None => None
      case Some(i) => Some(i + 1)
  }

  /** The complete, ascending records at the front of `b`; `last` is the id before them. */
  function ParseFrom(decode: Decoder, b: Bytes, last: Option<nat>): (p: Parsed)
    ensures p.offset <= |b|
    decreases |b|
  {
    if b == [] then Parsed(0, [], false)
    else
      match FirstNewline(b)
      case None => Parsed(0, [], true)
      case Some(n) =>
        match decode(b[..n])
        case None => Parsed(0, [], false)
        case Some(id) =>
          if last.Some? && last.value >= id then Parsed(0, [], false)
          else
            var rest := ParseFrom(decode, b[n + 1..], Some(id));
            Parsed(n + 1 + rest.offset, [id] + rest.ids, rest.torn)
  }

  function Parse(decode: Decoder, b: Bytes): Parsed {
    ParseFrom(decode, b, None)
  }

  function LastId(ids: seq<nat>): nat {
    if ids == [] then 0 else ids[|ids| - 1]
  }

  predicate Ascending(ids: seq<nat>) {
    forall i, j :: 0 <= i < j < |ids| ==> ids[i] < ids[j]
  }

  /** Every byte is part of a complete, ascending record. */
  predicate Whole(decode: Decoder, b: Bytes) {
    var p := Parse(decode, b);
    p.offset == |b| && !p.torn
  }

  /** One record with frame id `id`. */
  predicate IsFrame(decode: Decoder, line: Bytes, id: nat) {
    && line != []
    && FirstNewline(line) == Some(|line| - 1)
    && decode(line[..|line| - 1]) == Some(id)
  }

  predicate EndsLine(b: Bytes) {
    b == [] || b[|b| - 1] == NEWLINE
  }

  function Last(ids: seq<nat>): Option<nat> {
    if ids == [] then None else Some(ids[|ids| - 1])
  }

  /** The parse of `b` is what was read so far, followed by the parse of the rest. */
  predicate ReadSoFar(decode: Decoder, b: Bytes, offset: nat, ids: seq<nat>) {
    && offset <= |b|
    && var rest := ParseFrom(decode, b[offset..], Last(ids));
       Parse(decode, b) == Parsed(offset + rest.offset, ids + rest.ids, rest.torn)
  }

  lemma ReadOneMore(decode: Decoder, b: Bytes, offset: nat, ids: seq<nat>, n: nat, id: nat)
    requires offset < |b| && ReadSoFar(decode, b, offset, ids)
    requires FirstNewline(b[offset..]) == Some(n) && decode(b[offset..][..n]) == Some(id)
    requires ids == [] || ids[|ids| - 1] < id
    ensures offset + n + 1 <= |b|
    ensures ReadSoFar(decode, b, offset + n + 1, ids + [id])
  {
    assert b[offset..][n + 1..] == b[offset + n + 1..];
    var rest := ParseFrom(decode, b[offset + n + 1..], Some(id));
    assert ids + ([id] + rest.ids) == (ids + [id]) + rest.ids;
  }

  /** The next line is torn, does not decode, or carries an id that does not ascend. */
  predicate NoFurtherRecord(decode: Decoder, rest: Bytes, ids: seq<nat>) {
    match FirstNewline(rest)
    case None => true
    case Some(n) =>
      match decode(rest[..n])
      case None => true
      case Some(id) => ids != [] && ids[|ids| - 1] >= id
  }

  /** The rest holds no further record. */
  lemma ReadEnds(decode: Decoder, b: Bytes, offset: nat, ids: seq<nat>)
    requires offset <= |b| && ReadSoFar(decode, b, offset, ids) && NoFurtherRecord(decode, b[offset..], ids)
    ensures Parse(decode, b) == Parsed(offset, ids, offset < |b| && FirstNewline(b[offset..]).None?)
  {
    assert ids + [] == ids;
  }

  lemma NothingAfterTheEnd(decode: Decoder, b: Bytes, ids: seq<nat>)
    ensures NoFurtherRecord(decode, b[|b|..], ids)
  {
  }

  /** The loop of the source: lines are consumed until one is torn, undecodable or out of order. */
  method ParseRecordedPrefix(decode: Decoder, b: Bytes) returns (offset: nat, ids: seq<nat>, torn: bool)
    ensures Parsed(offset, ids, torn) == Parse(decode, b)
  {
    offset, ids, torn := 0, [], false;
    assert b[0..] == b;
    assert ReadSoFar(decode, b, 0, []);
    hide ReadSoFar, FirstNewline, Parse, ParseFrom;
    var more := true;
    while offset < |b| && more
      invariant offset <= |b| && ReadSoFar(decode, b, offset, ids)
      invariant !more ==> NoFurtherRecord(decode, b[offset..], ids)
      invariant torn <==> !more && offset < |b| && FirstNewline(b[offset..]).None?
      decreases |b| - offset, more
    {
      offset, ids, more := ReadRecord(decode, b, offset, ids);
      torn := !more && FirstNewline(b[offset..]).None?;
    }
    NothingAfterTheEnd(decode, b, ids);
    ReadEnds(decode, b, offset, ids);
  }

  /** Consumes one line, when it is a whole record that follows the ones before it. */
  method ReadRecord(decode: Decoder, b: Bytes, offset: nat, ids: seq<nat>) returns (next: nat, all: seq<nat>, more: bool)
    requires offset < |b| && ReadSoFar(decode, b, offset, ids)
    ensures next <= |b| && ReadSoFar(decode, b, next, all)
    ensures more ==> next > offset
    ensures !more ==> next == offset && NoFurtherRecord(decode, b[offset..], all)
  {
    hide ReadSoFar, Parse, ParseFrom;
    next, all, more := offset, ids, false;
    var line := b[offset..];
    var end := FirstNewline(line);
    if end.Some? {
      var value := decode(line[..end.value]);
      if value.Some? && (ids == [] || ids[|ids| - 1] < value.value) {
        ReadOneMore(decode, b, offset, ids, end.value, value.value);
        next, all, more := offset + end.value + 1, ids + [value.value], true;
      }
    }
  }

  lemma FirstNewlineAppend(a: Bytes, b: Bytes)
    requires FirstNewline(a).Some?
    ensures FirstNewline(a + b) == FirstNewline(a)
  {
    FirstNewlineUnique(a + b, FirstNewline(a).value);
  }

  lemma FirstNewlineUnique(b: Bytes, n: nat)
    requires n < |b| && b[n] == NEWLINE
    requires forall i :: 0 <= i < n ==> b[i] != NEWLINE
    ensures FirstNewline(b) == Some(n)
  {
    assert b[n] in b;
  }

  /** Parses to its very end, and the last id (or `last` itself) is below `id`. */
  predicate ReadyFor(decode: Decoder, b: Bytes, last: Option<nat>, id: nat) {
    var p := ParseFrom(decode, b, last);
    && p.offset == |b| && !p.torn
    && (p.ids == [] ==> last.None? || last.value < id)
    && (p.ids != [] ==> p.ids[|p.ids| - 1] < id)
  }

  /** Appending one record with a later id extends the parse by exactly that record. */
  lemma {:induction false} ParseAppendFrame(decode: Decoder, b: Bytes, last: Option<nat>, line: Bytes, id: nat)
    requires ReadyFor(decode, b, last, id) && IsFrame(decode, line, id)
    ensures ParseFrom(decode, b + line, last)
         == Parsed(|b| + |line|, ParseFrom(decode, b, last).ids + [id], false)
    decreases |b|
  {
    if b == [] {
      assert b + line == line;
      assert line[|line|..] == [];
    } else {
      var n := FirstNewline(b).value;
      var first := decode(b[..n]).value;
      ReadyForTail(decode, b, last, id, n, first);
      ParseAppendFrame(decode, b[n + 1..], Some(first), line, id);
      ParseAppendHead(decode, b, last, line, n, first);
      var rest := ParseFrom(decode, b[n + 1..], Some(first));
      assert [first] + (rest.ids + [id]) == ([first] + rest.ids) + [id];
    }
  }

  /** The first record is read the same way after an append. */
  lemma ParseAppendHead(decode: Decoder, b: Bytes, last: Option<nat>, line: Bytes, n: nat, first: nat)
    requires FirstNewline(b) == Some(n) && decode(b[..n]) == Some(first)
    requires last.None? || last.value < first
    ensures var rest := ParseFrom(decode, b[n + 1..] + line, Some(first));
      ParseFrom(decode, b + line, last) == Parsed(n + 1 + rest.offset, [first] + rest.ids, rest.torn)
  {
    FirstNewlineAppend(b, line);
    assert (b + line)[..n] == b[..n];
    assert (b + line)[n + 1..] == b[n + 1..] + line;
    ParseHead(decode, b + line, last, n, first);
  }

  lemma ParseHead(decode: Decoder, b: Bytes, last: Option<nat>, n: nat, first: nat)
    requires FirstNewline(b) == Some(n) && decode(b[..n]) == Some(first)
    requires last.None? || last.value < first
    ensures var rest := ParseFrom(decode, b[n + 1..], Some(first));
      ParseFrom(decode, b, last) == Parsed(n + 1 + rest.offset, [first] + rest.ids, rest.torn)
  {
  }

  lemma ReadyForTail(decode: Decoder, b: Bytes, last: Option<nat>, id: nat, n: nat, first: nat)
    requires b != [] && ReadyFor(decode, b, last, id)
    requires FirstNewline(b) == Some(n) && decode(b[..n]) == Some(first)
    ensures ReadyFor(decode, b[n + 1..], Some(first), id)
    ensures last.None? || last.value < first
  {
    var rest := ParseFrom(decode, b[n + 1..], Some(first));
    assert rest.ids != [] ==> ([first] + rest.ids)[|rest.ids|] == rest.ids[|rest.ids| - 1];
  }

  /** The first line is a record that may follow `last`. */
  predicate StartsWithRecord(decode: Decoder, b: Bytes, last: Option<nat>) {
    && FirstNewline(b).Some?
    && var first := decode(b[..FirstNewline(b).value]);
       first.Some? && (last.None? || last.value < first.value)
  }

  lemma NoRecordNoProgress(decode: Decoder, b: Bytes, last: Option<nat>)
    requires !StartsWithRecord(decode, b, last)
    ensures ParseFrom(decode, b, last) == Parsed(0, [], b != [] && FirstNewline(b).None?)
  {
  }

  lemma AscendingFrom(first: nat, rest: seq<nat>)
    requires Ascending(rest) && forall i :: 0 <= i < |rest| ==> rest[i] > first
    ensures Ascending([first] + rest)
  {
  }

  /** The ids of a parse ascend, and start above `last`. */
  lemma {:induction false} ParsedIdsAscend(decode: Decoder, b: Bytes, last: Option<nat>)
    ensures var ids := ParseFrom(decode, b, last).ids;
      Ascending(ids) && (last.Some? ==> forall i :: 0 <= i < |ids| ==> ids[i] > last.value)
    decreases |b|
  {
    hide ParseFrom, FirstNewline;
    if StartsWithRecord(decode, b, last) {
      var n := FirstNewline(b).value;
      var first := decode(b[..n]).value;
      ParsedIdsAscend(decode, b[n + 1..], Some(first));
      ParseHead(decode, b, last, n, first);
      AscendingFrom(first, ParseFrom(decode, b[n + 1..], Some(first)).ids);
    } else {
      NoRecordNoProgress(decode, b, last);
    }
  }

  lemma EndsLineAppend(a: Bytes, b: Bytes)
    requires EndsLine(a) && EndsLine(b)
    ensures EndsLine(a + b)
  {
    assert b == [] ==> a + b == a;
  }

  /** The complete records always end at a line end, so a torn parse stops just after a line feed. */
  lemma {:induction false} ParseEndsLine(decode: Decoder, b: Bytes, last: Option<nat>)
    ensures EndsLine(b[..ParseFrom(decode, b, last).offset])
    ensures ParseFrom(decode, b, last).torn ==> !EndsLine(b)
    decreases |b|
  {
    hide ParseFrom, FirstNewline;
    if StartsWithRecord(decode, b, last) {
      var n := FirstNewline(b).value;
      var first := decode(b[..n]).value;
      var tail := b[n + 1..];
      ParseEndsLine(decode, tail, Some(first));
      ParseHead(decode, b, last, n, first);
      var rest := ParseFrom(decode, tail, Some(first)).offset;
      assert b[..n + 1 + rest] == b[..n + 1] + tail[..rest];
      EndsLineAppend(b[..n + 1], tail[..rest]);
      assert !EndsLine(tail) ==> !EndsLine(b);
    } else {
      NoRecordNoProgress(decode, b, last);
    }
  }

  /** What parses completely parses the same again after the rest is cut away. */
  lemma {:induction false} ParseCut(decode: Decoder, b: Bytes, last: Option<nat>)
    ensures var p := ParseFrom(decode, b, last);
      ParseFrom(decode, b[..p.offset], last) == Parsed(p.offset, p.ids, false)
    decreases |b|
  {
    hide ParseFrom, FirstNewline;
    if StartsWithRecord(decode, b, last) {
      var n := FirstNewline(b).value;
      var first := decode(b[..n]).value;
      var tail := b[n + 1..];
      ParseHead(decode, b, last, n, first);
      var rest := ParseFrom(decode, tail, Some(first));
      ParseCut(decode, tail, Some(first));
      var cut := b[..n + 1 + rest.offset];
      FirstNewlineUnique(cut, n);
      assert cut[..n] == b[..n];
      assert cut[n + 1..] == tail[..rest.offset];
      ParseHead(decode, cut, last, n, first);
    } else {
      NoRecordNoProgress(decode, b, last);
      assert b[..0] == [];
      ParseNothing(decode, last);
    }
  }

  lemma ParseNothing(decode: Decoder, last: Option<nat>)
    ensures ParseFrom(decode, [], last) == Parsed(0, [], false)
  {
  }
}
