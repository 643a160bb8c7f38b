/** String splitting and decimal rendering, as the standard library of the source language does them. */
module Text {

  /** The pieces between occurrences of `sep`; always at least one. */
  function Split(s: string, sep: char): (parts: seq<string>)
    ensures |parts| > 0
    ensures forall p :: p in parts ==> sep !in p
  {
    if s == "" then [""]
    else
      var rest := Split(s[1..], sep);
      if s[0] == sep then [""] + rest else [[s[0]] + rest[0]] + rest[1..]
  }

  predicate AllDigits(s: string) {
    forall i :: 0 <= i < |s| ==> '0' <= s[i] <= '9'
  }

  function Digit(n: nat): (c: char)
    requires n < 10
    ensures '0' <= c <= '9'
  {
    '0' + n as char
  }

  /** Decimal digits without padding. */
  function Decimal(n: nat): (s: string)
    ensures s != ""
    ensures AllDigits(s)
  {
    if n < 10 then [Digit(n)] else Decimal(n / 10) + [Digit(n % 10)]
  }

  /** `{n:0width}`: decimal, padded on the left with zeros. */
  function Padded(n: nat, width: nat): (s: string)
    ensures |s| >= width
    ensures AllDigits(s)
  {
    var d := Decimal(n);
    if |d| < width then seq(width - |d|, _ => '0') + d else d
  }

  /** The number a digit string denotes. */
  function Numeral(s: string): nat
    requires AllDigits(s)
  {
    if s == "" then 0
    else Numeral(s[..|s| - 1]) * 10 + (s[|s| - 1] as int - '0' as int)
  }

  lemma {:induction false} NumeralDecimal(n: nat)
    ensures Numeral(Decimal(n)) == n
  {
    if n >= 10 {
      NumeralDecimal(n / 10);
      var d := Decimal(n);
      assert d[..|d| - 1] == Decimal(n / 10);
    }
  }

  lemma {:induction false} NumeralLeadingZeros(k: nat, s: string)
    requires AllDigits(s)
    ensures AllDigits(seq(k, _ => '0') + s)
    ensures Numeral(seq(k, _ => '0') + s) == Numeral(s)
    decreases |s|, k
  {
    var zeros := seq(k, _ => '0');
    var z := zeros + s;
    if s != "" {
      NumeralLeadingZeros(k, s[..|s| - 1]);
      assert z[..|z| - 1] == zeros + s[..|s| - 1];
    } else if k > 0 {
      NumeralLeadingZeros(k - 1, s);
      assert z[..k - 1] == seq(k - 1, _ => '0') + s;
      assert z[|z| - 1] == '0';
    }
  }

  /** Padding never merges two numbers. */
  lemma PaddedInjective(a: nat, b: nat, width: nat)
    requires Padded(a, width) == Padded(b, width)
    ensures a == b
  {
    NumeralPadded(a, width);
    NumeralPadded(b, width);
  }

  lemma NumeralPadded(n: nat, width: nat)
    ensures Numeral(Padded(n, width)) == n
  {
    NumeralDecimal(n);
    if |Decimal(n)| < width {
      NumeralLeadingZeros(width - |Decimal(n)|, Decimal(n));
    }
  }
}
