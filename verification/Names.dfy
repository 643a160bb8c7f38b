/** Session and stream names: every raw name maps to one safe path component. */
module Names {
  import opened Prelude
  import Text

  const MAX_COMPONENT_BYTES := 200

  datatype NameError = Empty | ContainsNul | Absolute | Traversal | TooLong(actual: nat, limit: nat)

  // ---------- UTF-8 ----------

  /** The UTF-8 encoding of one character (section 3 of RFC 3629). */
  function Utf8(c: char): (b: Bytes)
    ensures 1 <= |b| <= 4
  {
    var n := c as int;
    if n < 0x80 then [n]
    else if n < 0x800 then [0xC0 + n / 64, 0x80 + n % 64]
    else if n < 0x10000 then [0xE0 + n / 64 / 64, 0x80 + n / 64 % 64, 0x80 + n % 64]
    else [0xF0 + n / 64 / 64 / 64, 0x80 + n / 64 / 64 % 64, 0x80 + n / 64 % 64, 0x80 + n % 64]
  }

  function Utf8All(s: string): (b: Bytes) {
    if s == "" then [] else Utf8(s[0]) + Utf8All(s[1..])
  }

  /** One encoding is never a prefix of another, so the first character can be read back. */
  lemma Utf8Head(c: char, d: char, x: Bytes, y: Bytes)
    requires Utf8(c) + x == Utf8(d) + y
    ensures c == d && x == y
  {
    var whole := Utf8(c) + x;
    assert whole[0] == Utf8(c)[0] == Utf8(d)[0];
    assert |Utf8(c)| == |Utf8(d)|;
    var k := |Utf8(c)|;
    assert whole[..k] == Utf8(c) && whole[..k] == Utf8(d);
    assert whole[k..] == x && whole[k..] == y;
    assert forall i :: 0 <= i < k ==> Utf8(c)[i] == Utf8(d)[i];
    Utf8Code(c);
    Utf8Code(d);
  }

  function Tail(b: Byte): int {
    var n: int := b;
    n - 0x80
  }

  /** The code point, read from its encoding. */
  function CodeOf(b: Bytes): int
    requires 1 <= |b| <= 4
  {
    var lead: int := b[0];
    if |b| == 1 then lead
    else if |b| == 2 then (lead - 0xC0) * 64 + Tail(b[1])
    else if |b| == 3 then ((lead - 0xE0) * 64 + Tail(b[1])) * 64 + Tail(b[2])
    else (((lead - 0xF0) * 64 + Tail(b[1])) * 64 + Tail(b[2])) * 64 + Tail(b[3])
  }

  lemma Utf8Code(c: char)
    ensures CodeOf(Utf8(c)) == c as int
  {
  }

  lemma {:induction false} Utf8Injective(a: string, b: string)
    requires Utf8All(a) == Utf8All(b)
    ensures a == b
  {
    if a != "" && b != "" {
      Utf8Head(a[0], b[0], Utf8All(a[1..]), Utf8All(b[1..]));
      Utf8Injective(a[1..], b[1..]);
      assert a == [a[0]] + a[1..] && b == [b[0]] + b[1..];
    }
  }

  // ---------- Hexadecimal ----------

  function HexDigit(n: nat): (c: char)
    requires n < 16
  {
    if n < 10 then '0' + n as char else 'a' + (n - 10) as char
  }

  function HexValue(c: char): nat {
    if '0' <= c <= '9' then c as int - '0' as int
    else if 'a' <= c <= 'f' then c as int - 'a' as int + 10
    else 0
  }

  function Hex(b: Bytes): (s: string)
    ensures |s| == 2 * |b|
  {
    if b == [] then "" else [HexDigit(b[0] / 16), HexDigit(b[0] % 16)] + Hex(b[1..])
  }

  function UnHex(s: string): Bytes {
    if |s| < 2 then []
    else [(HexValue(s[0]) * 16 + HexValue(s[1])) % 256] + UnHex(s[2..])
  }

  lemma {:induction false} UnHexHex(b: Bytes)
    ensures UnHex(Hex(b)) == b
    ensures forall i :: 0 <= i < |Hex(b)| ==> ComponentChar(Hex(b)[i]) && !UpperCase(Hex(b)[i])
  {
    if b != [] {
      UnHexHex(b[1..]);
      assert Hex(b)[2..] == Hex(b[1..]);
    }
  }

  // ---------- Derivation ----------

  predicate LowerOrDigit(c: char) { 'a' <= c <= 'z' || '0' <= c <= '9' }

  predicate UpperCase(c: char) { 'A' <= c <= 'Z' }

  predicate Punctuation(c: char) { c == '.' || c == '_' || c == '-' }

  /** A character a derived component keeps as it is. */
  predicate ComponentChar(c: char) { LowerOrDigit(c) || UpperCase(c) || Punctuation(c) }

  /** Names that are used unchanged. */
  predicate Canonical(raw: string) {
    forall i :: 0 <= i < |raw| ==>
      LowerOrDigit(raw[i]) || (i > 0 && Punctuation(raw[i]))
  }

  predicate Traverses(raw: string) {
    exists part :: part in Text.Split(raw, '/') && (part == "." || part == "..")
  }

  function Sanitized(raw: string): (s: string)
    ensures |s| == |raw|
    ensures forall i :: 0 <= i < |s| ==> s[i] == if ComponentChar(raw[i]) then raw[i] else '_'
  {
    seq(|raw|, i requires 0 <= i < |raw| => if ComponentChar(raw[i]) then raw[i] else '_')
  }

  function Component(raw: string): string {
    if Canonical(raw) then Sanitized(raw) else Sanitized(raw) + "~" + Hex(Utf8All(raw))
  }

  function Derive(raw: string): Result<string, NameError> {
    if raw == "" then Err(Empty)
    else if '\0' in raw then Err(ContainsNul)
    else if raw[0] == '/' then Err(Absolute)
    else if Traverses(raw) then Err(Traversal)
    else if |Component(raw)| > MAX_COMPONENT_BYTES then Err(TooLong(|Component(raw)|, MAX_COMPONENT_BYTES))
    else Ok(Component(raw))
  }

  /** The source's own loop: hex digits are pushed onto the component one byte at a time. */
  method DeriveComponent(raw: string) returns (r: Result<string, NameError>)
    ensures r == Derive(raw)
  {
    hide Traverses, Utf8All, Canonical, HexDigit;
    if raw == "" {
      return Err(Empty);
    }
    if '\0' in raw {
      return Err(ContainsNul);
    }
    if raw[0] == '/' {
      return Err(Absolute);
    }
    if Traverses(raw) {
      return Err(Traversal);
    }
    var component := Sanitized(raw);
    if !Canonical(raw) {
      component := component + "~";
      var bytes := Utf8All(raw);
      var i := 0;
      while i < |bytes|
        invariant 0 <= i <= |bytes|
        invariant component + Hex(bytes[i..]) == Sanitized(raw) + "~" + Hex(bytes)
      {
        assert bytes[i..][1..] == bytes[i + 1..];
        var digits := [HexDigit(bytes[i] / 16), HexDigit(bytes[i] % 16)];
        assert component + Hex(bytes[i..]) == component + digits + Hex(bytes[i + 1..]);
        component := component + digits;
        i := i + 1;
      }
      assert component + Hex(bytes[i..]) == component;
    }
    if |component| > MAX_COMPONENT_BYTES {
      return Err(TooLong(|component|, MAX_COMPONENT_BYTES));
    }
    return Ok(component);
  }

  function SessionFilename(component: string): string {
    "tmux_" + component + "_screen.jsonl"
  }

  // ---------- What the derivation promises ----------

  /** Every derived name is short, ASCII and cannot name another directory. */
  lemma DerivedIsSafe(raw: string)
    requires Derive(raw).Ok?
    ensures var c := Derive(raw).value;
      && 0 < |c| <= MAX_COMPONENT_BYTES
      && (forall i :: 0 <= i < |c| ==> ComponentChar(c[i]) || c[i] == '~')
      && c != "." && c != ".."
  {
    UnHexHex(Utf8All(raw));
    var c := Derive(raw).value;
    if Canonical(raw) {
      assert c[0] == raw[0];
    } else {
      assert c[|raw|] == '~';
    }
  }

  function LowerChar(c: char): char {
    if UpperCase(c) then c + ('a' as int - 'A' as int) as char else c
  }

  function Lower(s: string): (t: string)
    ensures |t| == |s|
    ensures forall i :: 0 <= i < |s| ==> t[i] == LowerChar(s[i])
  {
    seq(|s|, i requires 0 <= i < |s| => LowerChar(s[i]))
  }

  /** The part after the first '~', or None. */
  function AfterTilde(s: string): (r: Option<string>)
    ensures r == None <==> '~' !in s
  {
    if s == "" then None else if s[0] == '~' then Some(s[1..]) else AfterTilde(s[1..])
  }

  lemma {:induction false} AfterFirstTilde(head: string, tail: string)
    requires '~' !in head
    ensures AfterTilde(head + "~" + tail) == Some(tail)
  {
    var s := head + "~" + tail;
    if head == "" {
      assert s[1..] == tail;
    } else {
      assert s[1..] == head[1..] + "~" + tail;
      AfterFirstTilde(head[1..], tail);
    }
  }

  /** Reads the raw bytes back from a derived component, whatever its letter case. */
  function RawBytes(component: string): Bytes {
    match AfterTilde(Lower(component))
    case None => Utf8All(Lower(component))
    case Some(hex) => UnHex(hex)
  }

  /** The raw name can be recovered from its component, even when the case was folded. */
  lemma RawIsRecoverable(raw: string)
    requires Derive(raw).Ok?
    ensures RawBytes(Derive(raw).value) == Utf8All(raw)
    ensures RawBytes(Lower(Derive(raw).value)) == Utf8All(raw)
  {
    hide Derive;
    var c := Component(raw);
    assert Derive(raw).value == c by {
      ComponentIsDerived(raw);
    }
    assert Lower(Lower(c)) == Lower(c);
    if Canonical(raw) {
      CanonicalReadsBack(raw);
    } else {
      EncodedReadsBack(raw);
    }
  }

  lemma ComponentIsDerived(raw: string)
    requires Derive(raw).Ok?
    ensures Derive(raw).value == Component(raw)
  {
  }

  lemma CanonicalReadsBack(raw: string)
    requires Canonical(raw)
    ensures RawBytes(Component(raw)) == Utf8All(raw)
  {
    assert Lower(Component(raw)) == raw;
    assert forall i :: 0 <= i < |raw| ==> raw[i] != '~';
  }

  lemma EncodedReadsBack(raw: string)
    requires !Canonical(raw)
    ensures RawBytes(Component(raw)) == Utf8All(raw)
  {
    var hex := Hex(Utf8All(raw));
    UnHexHex(Utf8All(raw));
    assert Lower(hex) == hex;
    var head := Lower(Sanitized(raw));
    assert forall i :: 0 <= i < |head| ==> head[i] != '~';
    assert Lower(Component(raw)) == head + "~" + hex;
    AfterFirstTilde(head, hex);
  }

  /** Two names never share a component, not even on a case-insensitive file system. */
  lemma DerivedNamesDoNotAlias(a: string, b: string)
    requires Derive(a).Ok? && Derive(b).Ok?
    requires Lower(Derive(a).value) == Lower(Derive(b).value)
    ensures a == b
  {
    RawIsRecoverable(a);
    RawIsRecoverable(b);
    Utf8Injective(a, b);
  }

  /** A name maps to itself exactly when it is canonical, non-empty and within the bound. */
  lemma FixpointsAreCanonical(raw: string)
    ensures Derive(raw) == Ok(raw) <==> raw != "" && Canonical(raw) && |raw| <= MAX_COMPONENT_BYTES
  {
    if raw != "" && Canonical(raw) {
      assert raw[0] != '/' && raw[0] != '.';
      assert forall i :: 0 <= i < |raw| ==> raw[i] != '\0' && raw[i] != '/';
      SplitWithout(raw, '/');
      assert Sanitized(raw) == raw;
    } else if Derive(raw).Ok? {
      assert |Component(raw)| > |raw|;
    }
  }

  lemma {:induction false} SplitWithout(s: string, sep: char)
    requires sep !in s
    ensures Text.Split(s, sep) == [s]
  {
    if s != "" {
      assert sep !in s[1..];
      SplitWithout(s[1..], sep);
      assert s == [s[0]] + s[1..];
    }
  }

  /** Distinct sessions write to distinct files. */
  lemma SessionFilesAreDistinct(a: string, b: string)
    requires Derive(a).Ok? && Derive(b).Ok?
    requires SessionFilename(Derive(a).value) == SessionFilename(Derive(b).value)
    ensures a == b
  {
    var x, y := Derive(a).value, Derive(b).value;
    var f, g := SessionFilename(x), SessionFilename(y);
    assert |x| == |f| - 18 && |y| == |g| - 18;
    assert x == f[5..|f| - 13] && y == g[5..|g| - 13];
    DerivedNamesDoNotAlias(a, b);
  }
}
