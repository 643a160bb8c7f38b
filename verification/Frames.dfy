/** Frame serialization: escaped JSON strings, spaced separators, one line per frame. */
module Frames {
  import opened Prelude
  import Jsonl

  // ---------- String escaping ----------

  const QUOTE: Byte := 0x22
  const BACKSLASH: Byte := 0x5C

  function HexByte(n: nat): (b: Byte)
    requires n < 16
    ensures 0x20 <= b < 0x80
  {
    if n < 10 then 0x30 + n else 0x61 + (n - 10)
  }

  function HexOf(b: Byte): (n: Option<nat>)
    ensures n.Some? ==> n.value < 16
  {
    if 0x30 <= b <= 0x39 then Some(b - 0x30)
    else if 0x61 <= b <= 0x66 then Some(b - 0x61 + 10)
    else if 0x41 <= b <= 0x46 then Some(b - 0x41 + 10)
    else None
  }

  /** `\u` and four lowercase hexadecimal digits. */
  function UnicodeEscape(n: nat): (b: Bytes)
    requires n < 0x10000
    ensures |b| == 6
  {
    [BACKSLASH, 0x75, HexByte(n / 16 / 16 / 16), HexByte(n / 16 / 16 % 16), HexByte(n / 16 % 16), HexByte(n % 16)]
  }

  /** What the formatter writes for one character. */
  function EscapeChar(c: char): (b: Bytes)
    ensures 1 <= |b| <= 12
  {
    var n := c as int;
    if n == 0x22 || n == 0x5C then [BACKSLASH, n]
    else if n == 0x08 then [BACKSLASH, 0x62]
    else if n == 0x0C then [BACKSLASH, 0x66]
    else if n == 0x0A then [BACKSLASH, 0x6E]
    else if n == 0x0D then [BACKSLASH, 0x72]
    else if n == 0x09 then [BACKSLASH, 0x74]
    else if n < 0x20 then UnicodeEscape(n)
    else if n < 0x80 then [n]
    else if n <= 0xFFFF then UnicodeEscape(n)
    else
      var adjusted := n - 0x10000;
      UnicodeEscape(0xD800 + adjusted / 1024) + UnicodeEscape(0xDC00 + adjusted % 1024)
  }

  function Escape(s: string): Bytes {
    if s == "" then [] else EscapeChar(s[0]) + Escape(s[1..])
  }

  /** Writes a string body onto the buffer, one character at a time. */
  method WriteString(buffer: Bytes, s: string) returns (written: Bytes)
    ensures written == buffer + [QUOTE] + Escape(s) + [QUOTE]
  {
    written := buffer + [QUOTE];
    var i := 0;
    while i < |s|
      invariant 0 <= i <= |s|
      invariant written + Escape(s[i..]) == buffer + [QUOTE] + Escape(s)
    {
      var escaped := EscapeChar(s[i]);
      EscapeStep(s, i, written);
      written := written + escaped;
      i := i + 1;
    }
    assert written + Escape(s[i..]) == written;
    written := written + [QUOTE];
  }

  lemma EscapeStep(s: string, i: nat, written: Bytes)
    requires i < |s|
    ensures written + Escape(s[i..]) == written + EscapeChar(s[i]) + Escape(s[i + 1..])
  {
    assert s[i..][1..] == s[i + 1..];
  }

  // ---------- Reading a string back (section 7 of RFC 8259) ----------

  /** Four hexadecimal digits at the front. */
  function ReadHex4(b: Bytes): (n: Option<nat>)
    ensures n.Some? ==> |b| >= 4 && n.value < 0x10000
  {
    if |b| < 4 then None
    else
      match (HexOf(b[0]), HexOf(b[1]), HexOf(b[2]), HexOf(b[3]))
      case (Some(w), Some(x), Some(y), Some(z)) => Some(((w * 16 + x) * 16 + y) * 16 + z)
      case _ => None
  }

  /** One character and the number of bytes it takes; a lone surrogate is not a character. */
  function ReadChar(b: Bytes): (r: Option<(char, nat)>)
    requires b != []
    ensures r.Some? ==> 1 <= r.value.1 <= |b|
  {
    if b[0] != BACKSLASH then
      (if 0x20 <= b[0] < 0x80 then Some((b[0] as char, 1)) else None)
    else if |b| < 2 then None
    else if b[1] == 0x22 || b[1] == 0x5C || b[1] == 0x2F then Some((b[1] as char, 2))
    else if b[1] == 0x62 then Some((0x08 as char, 2))
    else if b[1] == 0x66 then Some((0x0C as char, 2))
    else if b[1] == 0x6E then Some((0x0A as char, 2))
    else if b[1] == 0x72 then Some((0x0D as char, 2))
    else if b[1] == 0x74 then Some((0x09 as char, 2))
    else if b[1] != 0x75 then None
    else
      match ReadHex4(b[2..])
      case None => None
      case Some(n) =>
        if n < 0xD800 || n > 0xDFFF then Some((n as char, 6))
        else if n > 0xDBFF || |b| < 12 || b[6] != BACKSLASH || b[7] != 0x75 then None
        else
          match ReadHex4(b[8..])
          case Some(low) =>
            if 0xDC00 <= low <= 0xDFFF
            then Some(((0x10000 + (n - 0xD800) * 1024 + (low - 0xDC00)) as char, 12))
            else None
          case None => None
  }

  /** The string up to the first unescaped quote, and what follows the quote. */
  function ReadString(b: Bytes): Option<(string, Bytes)>
    decreases |b|
  {
    if b == [] then None
    else if b[0] == QUOTE then Some(("", b[1..]))
    else
      match ReadChar(b)
      case None => None
      case Some((c, used)) =>
        match ReadString(b[used..])
        case None => None
        case Some((s, rest)) => Some(([c] + s, rest))
  }

  lemma ReadUnicodeEscape(n: nat, rest: Bytes)
    requires n < 0x10000
    ensures ReadHex4((UnicodeEscape(n) + rest)[2..]) == Some(n)
  {
    var a := n / 16;
    var b := a / 16;
    assert n == a * 16 + n % 16 && a == b * 16 + a % 16 && b == b / 16 * 16 + b % 16;
    var e := (UnicodeEscape(n) + rest)[2..];
    assert e[0] == HexByte(b / 16) && e[1] == HexByte(b % 16) && e[2] == HexByte(a % 16) && e[3] == HexByte(n % 16);
  }

  lemma ReadEscapedChar(c: char, rest: Bytes)
    ensures ReadChar(EscapeChar(c) + rest) == Some((c, |EscapeChar(c)|))
  {
    var n := c as int;
    if n > 0xFFFF {
      ReadSurrogatePair(c, rest);
    } else if EscapeChar(c) == UnicodeEscape(n) {
      ReadUnicodeEscape(n, rest);
    }
  }

  /** A character above the basic plane is written as two escapes and read back as one. */
  lemma ReadSurrogatePair(c: char, rest: Bytes)
    requires c as int > 0xFFFF
    ensures ReadChar(EscapeChar(c) + rest) == Some((c, 12))
  {
    hide HexByte, HexOf, ReadHex4;
    var adjusted := c as int - 0x10000;
    var high, low := 0xD800 + adjusted / 1024, 0xDC00 + adjusted % 1024;
    assert adjusted == (high - 0xD800) * 1024 + (low - 0xDC00);
    var tail := UnicodeEscape(low) + rest;
    var b := UnicodeEscape(high) + tail;
    ReadUnicodeEscape(high, tail);
    ReadUnicodeEscape(low, rest);
    assert b[8..] == tail[2..];
    assert EscapeChar(c) + rest == b;
    assert b[6] == BACKSLASH && b[7] == 0x75;
  }

  /** A string survives escaping, whatever bytes follow its closing quote. */
  lemma {:induction false} StringRoundTrip(s: string, rest: Bytes)
    ensures ReadString(Escape(s) + [QUOTE] + rest) == Some((s, rest))
  {
    var b := Escape(s) + [QUOTE] + rest;
    if s == "" {
      assert b[1..] == rest;
    } else {
      var tail := Escape(s[1..]) + [QUOTE] + rest;
      assert b == EscapeChar(s[0]) + tail;
      ReadEscapedChar(s[0], tail);
      StringRoundTrip(s[1..], rest);
      assert b[|EscapeChar(s[0])|..] == tail;
      assert [s[0]] + s[1..] == s;
    }
  }

  // ---------- Values ----------

  type NumberText = s: string | forall i :: 0 <= i < |s| ==> s[i] in "+-.0123456789Ee" witness "0"

  datatype Json =
    | Null
    | Bool(b: bool)
    | Number(text: NumberText)
    | Text(s: string)
    | Array(items: seq<Json>)
    | Object(fields: seq<(string, Json)>)

  predicate Printable(b: Bytes) {
    forall i :: 0 <= i < |b| ==> 0x20 <= b[i] < 0x80
  }

  function NumberBytes(text: NumberText): (b: Bytes)
    ensures Printable(b)
  {
    seq(|text|, i requires 0 <= i < |text| => NumberByte(text[i]))
  }

  function NumberByte(c: char): (b: Byte)
    requires c in "+-.0123456789Ee"
    ensures 0x20 <= b < 0x80
  {
    c as int
  }

  function Quoted(s: string): Bytes {
    [QUOTE] + Escape(s) + [QUOTE]
  }

  /** The bytes of a value: ", " between items and ": " after keys. */
  function Serialize(v: Json): Bytes
    decreases v, 1
  {
    match v
    case Null => [0x6E, 0x75, 0x6C, 0x6C]
    case Bool(b) => if b then [0x74, 0x72, 0x75, 0x65] else [0x66, 0x61, 0x6C, 0x73, 0x65]
    case Number(text) => NumberBytes(text)
    case Text(s) => Quoted(s)
    case Array(items) => [0x5B] + SerializeItems(items, true) + [0x5D]
    case Object(fields) => [0x7B] + SerializeFields(fields, true) + [0x7D]
  }

  function SerializeItems(items: seq<Json>, first: bool): Bytes
    decreases items
  {
    if items == [] then []
    else (if first then [] else [0x2C, 0x20]) + Serialize(items[0]) + SerializeItems(items[1..], false)
  }

  function SerializeFields(fields: seq<(string, Json)>, first: bool): Bytes
    decreases fields
  {
    if fields == [] then []
    else
      assert fields[0].1 < fields[0];
      (if first then [] else [0x2C, 0x20]) + Quoted(fields[0].0) + [0x3A, 0x20] + Serialize(fields[0].1)
      + SerializeFields(fields[1..], false)
  }

  /** One frame: the envelope and a line feed. */
  function SerializeFrame(envelope: Json): Bytes {
    Serialize(envelope) + [NEWLINE]
  }

  lemma {:induction false} EscapedIsPrintable(s: string)
    ensures Printable(Escape(s))
  {
    if s != "" {
      EscapedIsPrintable(s[1..]);
      assert Printable(EscapeChar(s[0]));
    }
  }

  /** Everything the serializer writes for a value is printable ASCII. */
  lemma {:induction false} SerializedIsPrintable(v: Json)
    ensures Printable(Serialize(v))
    decreases v, 1
  {
    hide Escape;
    match v {
      case Text(s) => EscapedIsPrintable(s);
      case Array(items) => ItemsArePrintable(items, true);
      case Object(fields) => FieldsArePrintable(fields, true);
      case _ =>
    }
  }

  lemma {:induction false} ItemsArePrintable(items: seq<Json>, first: bool)
    ensures Printable(SerializeItems(items, first))
    decreases items
  {
    if items != [] {
      SerializedIsPrintable(items[0]);
      ItemsArePrintable(items[1..], false);
    }
  }

  lemma PrintableJoin(a: Bytes, b: Bytes, c: Bytes)
    requires Printable(a) && Printable(b) && Printable(c)
    ensures Printable(a + b + c)
  {
  }

  lemma {:induction false} FieldsArePrintable(fields: seq<(string, Json)>, first: bool)
    ensures Printable(SerializeFields(fields, first))
    decreases fields
  {
    if fields != [] {
      assert fields[0].1 < fields[0];
      EscapedIsPrintable(fields[0].0);
      SerializedIsPrintable(fields[0].1);
      FieldsArePrintable(fields[1..], false);
      var separator: Bytes := if first then [] else [0x2C, 0x20];
      PrintableJoin(separator, Quoted(fields[0].0), [0x3A, 0x20]);
      PrintableJoin(separator + Quoted(fields[0].0) + [0x3A, 0x20], Serialize(fields[0].1), SerializeFields(fields[1..], false));
    }
  }

  /** A frame has exactly one line feed, and it is the last byte. */
  lemma FrameIsOneLine(envelope: Json)
    ensures var frame := SerializeFrame(envelope);
      && frame[|frame| - 1] == NEWLINE
      && (forall i :: 0 <= i < |frame| - 1 ==> frame[i] != NEWLINE)
  {
    SerializedIsPrintable(envelope);
  }

  /** So a write torn anywhere inside a frame leaves no line feed behind. */
  lemma TornFrameHasNoNewline(envelope: Json, torn: Bytes)
    requires torn < SerializeFrame(envelope)
    ensures NEWLINE !in torn
  {
    FrameIsOneLine(envelope);
  }

  /** Where the reader gets the id back from the envelope, the frame is one record with that id, as recovery parses it. */
  lemma FrameIsARecord(decode: Jsonl.Decoder, envelope: Json, id: nat)
    requires decode(Serialize(envelope)) == Some(id)
    ensures Jsonl.IsFrame(decode, SerializeFrame(envelope), id)
  {
    FrameIsOneLine(envelope);
    var frame := SerializeFrame(envelope);
    Jsonl.FirstNewlineUnique(frame, |frame| - 1);
    assert frame[..|frame| - 1] == Serialize(envelope);
  }
}
