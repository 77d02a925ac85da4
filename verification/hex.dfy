/** Hexadecimal text as Python writes it: `"%X" % n` (upper-case digits, no prefix) and
    `hex(n)` (`0x` followed by lower-case digits), for non-negative `n`. */
module Hex {

  predicate IsHexDigit(c: char) {
    ('0' <= c <= '9') || ('a' <= c <= 'f') || ('A' <= c <= 'F')
  }

  function DigitChar(d: nat, upper: bool): (c: char)
    requires d < 16
    ensures IsHexDigit(c)
  {
    if d < 10 then ('0' as int + d) as char
    else if upper then ('A' as int + d - 10) as char
    else ('a' as int + d - 10) as char
  }

  function DigitValue(c: char): (d: nat)
    requires IsHexDigit(c)
    ensures d < 16
  {
    if '0' <= c <= '9' then c as int - '0' as int
    else if 'a' <= c <= 'f' then c as int - 'a' as int + 10
    else c as int - 'A' as int + 10
  }

  /** The digits of `n` in base 16, most significant first, without leading zeros ("0" for 0). */
  function Digits(n: nat, upper: bool): (s: string)
    ensures |s| > 0
    ensures forall i | 0 <= i < |s| :: IsHexDigit(s[i])
    decreases n
  {
    if n < 16 then [DigitChar(n, upper)]
    else Digits(n / 16, upper) + [DigitChar(n % 16, upper)]
  }

  /** `"%X" % n`. */
  function Upper(n: nat): string {
    Digits(n, true)
  }

  /** `hex(n)`. */
  function PyHex(n: nat): string {
    "0x" + Digits(n, false)
  }

  /** The number a string of hex digits denotes, read most significant digit first. */
  function Value(s: string): nat
    requires forall i | 0 <= i < |s| :: IsHexDigit(s[i])
    decreases |s|
  {
    if |s| == 0 then 0 else Value(s[..|s| - 1]) * 16 + DigitValue(s[|s| - 1])
  }

  lemma DigitRoundTrip(d: nat, upper: bool)
    requires d < 16
    ensures DigitValue(DigitChar(d, upper)) == d
  {
  }

  /** Reading back the digits written for `n` gives `n`: the hex text loses nothing. */
  lemma {:induction false} DigitsRoundTrip(n: nat, upper: bool)
    ensures Value(Digits(n, upper)) == n
    decreases n
  {
    var s := Digits(n, upper);
    DigitRoundTrip(n % 16, upper);
    if n < 16 {
      assert s[..0] == [];
    } else {
      DigitsRoundTrip(n / 16, upper);
      assert s[..|s| - 1] == Digits(n / 16, upper);
    }
  }

  /** Distinct numbers get distinct hex text. */
  lemma DigitsInjective(m: nat, n: nat, upper: bool)
    requires Digits(m, upper) == Digits(n, upper)
    ensures m == n
  {
    DigitsRoundTrip(m, upper);
    DigitsRoundTrip(n, upper);
  }
}
