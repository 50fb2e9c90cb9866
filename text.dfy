/**
 * Text conversions shared by the server and the client: decimal rendering of
 * integers as std::to_string produces it, and the pieces of C-library number
 * reading (white space, sign, digits of a base) used by stoul and by stream
 * extraction.
 */
module Text {

  predicate IsDigit(c: char) {
    '0' <= c <= '9'
  }

  predicate AllDigits(s: string) {
    forall i :: 0 <= i < |s| ==> IsDigit(s[i])
  }

  function DigitChar(d: nat): (c: char)
    requires d < 10
    ensures IsDigit(c) && c as int - '0' as int == d
  {
    ('0' as int + d) as char
  }

  /** std::to_string of a non-negative value: shortest decimal form, no leading zero. */
  function NatToDecimal(n: nat): (s: string)
    ensures |s| >= 1 && AllDigits(s)
    ensures |s| > 1 ==> s[0] != '0'
    ensures n < 10 <==> |s| == 1
  {
    if n < 10 then [DigitChar(n)] else NatToDecimal(n / 10) + [DigitChar(n % 10)]
  }

  /**
   * std::to_string of a signed value: a minus sign exactly for a negative
   * value, then the magnitude's shortest decimal form, which reads back as
   * the magnitude.
   */
  function IntToDecimal(i: int): (s: string)
    ensures |s| >= 1
    ensures i < 0 <==> s[0] == '-'
    ensures i >= 0 ==> s == NatToDecimal(i) && DecimalValue(s) == i
    ensures i < 0 ==> s[1..] == NatToDecimal(-i) && DecimalValue(s[1..]) == -i
  {
    if i < 0 then
      DecimalRoundTrip(-i);
      assert ("-" + NatToDecimal(-i))[1..] == NatToDecimal(-i);
      "-" + NatToDecimal(-i)
    else
      DecimalRoundTrip(i);
      NatToDecimal(i)
  }

  /** The value of a string of decimal digits (the reading direction of NatToDecimal). */
  function DecimalValue(s: string): nat
    requires AllDigits(s)
  {
    if s == [] then 0 else DecimalValue(s[..|s| - 1]) * 10 + (s[|s| - 1] as int - '0' as int)
  }

  lemma {:induction false} DecimalRoundTrip(n: nat)
    ensures DecimalValue(NatToDecimal(n)) == n
  {
    if n >= 10 {
      var s := NatToDecimal(n);
      assert s[..|s| - 1] == NatToDecimal(n / 10);
      DecimalRoundTrip(n / 10);
    }
  }

  /** Distinct counters give distinct decimal strings, so generated nicknames never collide. */
  lemma NatToDecimalInjective(a: nat, b: nat)
    requires NatToDecimal(a) == NatToDecimal(b)
    ensures a == b
  {
    DecimalRoundTrip(a);
    DecimalRoundTrip(b);
  }

  /** The value of a digit character in bases up to 16 (0-9, a-f, A-F); 16 for any other character. */
  function DigitValue(ch: char): (v: nat)
    ensures v <= 16
    ensures IsDigit(ch) ==> v == ch as int - '0' as int
  {
    if '0' <= ch <= '9' then ch as int - '0' as int
    else if 'a' <= ch <= 'f' then ch as int - 'a' as int + 10
    else if 'A' <= ch <= 'F' then ch as int - 'A' as int + 10
    else 16
  }

  /** Every character of `s` is a digit of the given base. */
  predicate AllDigitsIn(s: string, base: nat) {
    forall i :: 0 <= i < |s| ==> DigitValue(s[i]) < base
  }

  /** The length of the longest prefix of `s` made of digits of the given base. */
  function DigitRun(s: string, base: nat): (n: nat)
    ensures n <= |s| && AllDigitsIn(s[..n], base)
    ensures n < |s| ==> DigitValue(s[n]) >= base
  {
    if s != [] && DigitValue(s[0]) < base then
      var n := 1 + DigitRun(s[1..], base);
      assert s[..n] == [s[0]] + s[1..][..n - 1];
      n
    else 0
  }

  /** The value of a string of digits in the given base, most significant first. */
  function DigitsValue(s: string, base: nat): nat
    requires AllDigitsIn(s, base)
  {
    if s == [] then 0 else DigitsValue(s[..|s| - 1], base) * base + DigitValue(s[|s| - 1])
  }

  /** For decimal digits the general reading agrees with DecimalValue. */
  lemma {:induction false} DigitsValueDecimal(s: string)
    requires AllDigits(s)
    ensures AllDigitsIn(s, 10) && DigitsValue(s, 10) == DecimalValue(s)
  {
    if s != [] {
      DigitsValueDecimal(s[..|s| - 1]);
    }
  }

  /** ULONG_MAX + 1 on the 64-bit targets the server is built for. */
  const ULONG_LIMIT: nat := 0x1_0000_0000_0000_0000

  /** The C locale's isspace. */
  predicate IsCSpace(ch: char) {
    ch == ' ' || '\t' <= ch <= '\r'
  }

  /** Leading white space skipped: what remains is a suffix, every dropped character is white space, and the rest starts with none. */
  function SkipSpace(s: string): (r: string)
    ensures |r| <= |s| && r == s[|s| - |r|..]
    ensures forall k :: 0 <= k < |s| - |r| ==> IsCSpace(s[k])
    ensures r != [] ==> !IsCSpace(r[0])
  {
    if s != [] && IsCSpace(s[0]) then SkipSpace(s[1..]) else s
  }

  predicate Negated(t: string) {
    t != [] && t[0] == '-'
  }

  /** The text after an optional sign. */
  function Unsigned(t: string): string {
    if t != [] && (t[0] == '-' || t[0] == '+') then t[1..] else t
  }

  lemma {:induction false} DigitRunAll(s: string, base: nat)
    requires AllDigitsIn(s, base)
    ensures DigitRun(s, base) == |s|
  {
    if s != [] {
      DigitRunAll(s[1..], base);
    }
  }
}
