/** Decimal numerals, and blanks around them. */
module Numerals {
  predicate IsSpace(c: char) {
    c == ' ' || c == '\t' || c == '\n' || c == '\r' || c as int == 11 || c as int == 12
  }

  predicate IsDigit(c: char) { '0' <= c <= '9' }

  predicate Digits(d: string) {
    d != "" && forall i :: 0 <= i < |d| ==> IsDigit(d[i])
  }

  function TrimFront(s: string): (r: string)
    ensures |r| <= |s|
  {
    if s != "" && IsSpace(s[0]) then TrimFront(s[1..]) else s
  }

  function DigitRun(s: string): (n: nat)
    ensures n <= |s|
  {
    if s != "" && IsDigit(s[0]) then 1 + DigitRun(s[1..]) else 0
  }

  function Decimal(digits: string): nat
    requires forall i :: 0 <= i < |digits| ==> IsDigit(digits[i])
  {
    if digits == "" then 0
    else Decimal(digits[..|digits| - 1]) * 10 + DigitValue(digits[|digits| - 1])
  }

  function DigitValue(c: char): nat
    requires IsDigit(c)
  {
    c as int - '0' as int
  }

  lemma {:induction false} RunIsDigits(s: string)
    ensures forall i :: 0 <= i < DigitRun(s) ==> IsDigit(s[i])
  {
    if s != "" && IsDigit(s[0]) {
      RunIsDigits(s[1..]);
      forall i | 0 < i < DigitRun(s) ensures IsDigit(s[i]) {
        assert s[1..][i - 1] == s[i];
      }
    }
  }

  /** What the run of digits at the front amounts to. */
  function RunValue(s: string): nat {
    RunIsDigits(s);
    Decimal(s[..DigitRun(s)])
  }

  lemma {:induction false} RunOfDigits(d: string, rest: string)
    requires (forall i :: 0 <= i < |d| ==> IsDigit(d[i])) && (rest != "" ==> !IsDigit(rest[0]))
    ensures DigitRun(d + rest) == |d|
  {
    if d == "" {
      assert d + rest == rest;
    } else {
      assert (d + rest)[1..] == d[1..] + rest;
      RunOfDigits(d[1..], rest);
    }
  }

  function Digit(d: nat): char
    requires d < 10
  {
    ('0' as int + d) as char
  }

  function DigitsOf(v: nat): string {
    if v < 10 then [Digit(v)] else DigitsOf(v / 10) + [Digit(v % 10)]
  }

  lemma {:induction false} DigitsReadBack(v: nat)
    ensures Digits(DigitsOf(v)) && Decimal(DigitsOf(v)) == v
  {
    if v < 10 {
      assert [Digit(v)][..0] == "";
    } else {
      DigitsReadBack(v / 10);
      var d := DigitsOf(v / 10) + [Digit(v % 10)];
      assert d[..|d| - 1] == DigitsOf(v / 10);
    }
  }

  /** A numeral has no leading zeros. */
  lemma {:induction false} NoLeadingZeros(v: nat)
    ensures |DigitsOf(v)| > 1 ==> DigitsOf(v)[0] != '0'
    ensures v > 0 ==> DigitsOf(v)[0] != '0'
    ensures DigitsOf(0) == "0"
  {
    if v >= 10 {
      NoLeadingZeros(v / 10);
    }
  }

  /** A numeral in front of something else is read as its number. */
  lemma NumeralReads(v: nat, rest: string)
    requires rest != "" ==> !IsDigit(rest[0])
    ensures DigitRun(DigitsOf(v) + rest) == |DigitsOf(v)| && RunValue(DigitsOf(v) + rest) == v
    ensures Digits(DigitsOf(v)) && (DigitsOf(v) + rest)[|DigitsOf(v)|..] == rest
  {
    DigitsReadBack(v);
    RunOfDigits(DigitsOf(v), rest);
    assert (DigitsOf(v) + rest)[..|DigitsOf(v)|] == DigitsOf(v);
  }
}
