/** Ruby's decimal conversions: String#to_i (which never fails: it reads the
    longest decimal prefix after optional white space and sign, and gives 0
    when there is none) and Integer#to_s. */
module Numerals {

  predicate IsDigit(c: char) { '0' <= c <= '9' }

  /** The white space String#to_i skips before the number. */
  predicate IsSpace(c: char) { c == ' ' || c == '\t' || c == '\n' || c == '\U{B}' || c == '\U{C}' || c == '\r' }

  function DigitValue(c: char): nat requires IsDigit(c) { c as int - '0' as int }

  function DigitChar(d: nat): (c: char)
    requires d < 10
    ensures IsDigit(c) && DigitValue(c) == d
  {
    ('0' as int + d) as char
  }

  predicate AllDigits(s: string) { forall i :: 0 <= i < |s| ==> IsDigit(s[i]) }

  /** The value of a string of decimal digits. */
  function DigitsValue(ds: string): nat
    requires AllDigits(ds)
  {
    if ds == [] then 0 else DigitsValue(ds[..|ds| - 1]) * 10 + DigitValue(ds[|ds| - 1])
  }

  function SkipSpace(s: string): (r: string)
    ensures |r| <= |s| && r == s[|s| - |r|..]
  {
    if s != [] && IsSpace(s[0]) then SkipSpace(s[1..]) else s
  }

  /** The digits String#to_i reads at the front of `s`: a run of digits in
      which a single underscore may stand between two digits. */
  function LeadingDigits(s: string): (ds: string)
    ensures AllDigits(ds)
  {
    if s != [] && IsDigit(s[0]) then [s[0]] + MoreDigits(s[1..]) else ""
  }

  function MoreDigits(s: string): (ds: string)
    ensures AllDigits(ds)
  {
    if s != [] && IsDigit(s[0]) then [s[0]] + MoreDigits(s[1..])
    else if |s| >= 2 && s[0] == '_' && IsDigit(s[1]) then [s[1]] + MoreDigits(s[2..])
    else ""
  }

  /** String#to_i */
  function StringToI(s: string): int
  {
    var t := SkipSpace(s);
    if t != [] && t[0] == '-' then 0 - DigitsValue(LeadingDigits(t[1..])) as int
    else if t != [] && t[0] == '+' then DigitsValue(LeadingDigits(t[1..]))
    else DigitsValue(LeadingDigits(t))
  }

  /** Integer#to_s for a non-negative integer. */
  function NatToString(n: nat): (s: string)
    ensures s != [] && AllDigits(s)
  {
    if n < 10 then [DigitChar(n)] else NatToString(n / 10) + [DigitChar(n % 10)]
  }

  /** Integer#to_s */
  function IntToString(i: int): (s: string)
    ensures s != []
  {
    if i < 0 then "-" + NatToString(-i) else NatToString(i)
  }

  lemma {:induction false} DigitsValueOfNatToString(n: nat)
    ensures DigitsValue(NatToString(n)) == n
  {
    if n >= 10 {
      DigitsValueOfNatToString(n / 10);
      var s := NatToString(n);
      assert s[..|s| - 1] == NatToString(n / 10);
    }
  }

  lemma {:induction false} MoreDigitsOfDigits(ds: string)
    requires AllDigits(ds)
    ensures MoreDigits(ds) == ds
  {
    if ds != [] {
      MoreDigitsOfDigits(ds[1..]);
      assert [ds[0]] + ds[1..] == ds;
    }
  }

  lemma LeadingDigitsOfDigits(ds: string)
    requires ds != [] && AllDigits(ds)
    ensures LeadingDigits(ds) == ds
  {
    MoreDigitsOfDigits(ds[1..]);
    assert [ds[0]] + ds[1..] == ds;
  }

  lemma ReadNonNegative(ds: string)
    requires ds != [] && AllDigits(ds)
    ensures StringToI(ds) == DigitsValue(ds)
  {
    assert SkipSpace(ds) == ds;
    LeadingDigitsOfDigits(ds);
  }

  lemma ReadNegative(ds: string)
    requires ds != [] && AllDigits(ds)
    ensures StringToI("-" + ds) == 0 - DigitsValue(ds) as int
  {
    var s := "-" + ds;
    assert SkipSpace(s) == s;
    assert s[1..] == ds;
    LeadingDigitsOfDigits(ds);
  }

  /** Reading back what Integer#to_s writes gives the integer: String#to_i
      inverts Integer#to_s. */
  lemma StringToIOfIntToString(i: int)
    ensures StringToI(IntToString(i)) == i
  {
    if i < 0 {
      DigitsValueOfNatToString(-i);
      ReadNegative(NatToString(-i));
    } else {
      DigitsValueOfNatToString(i);
      ReadNonNegative(NatToString(i));
    }
  }

  /** A string that starts with no digit (after blanks and a sign) reads as 0,
      as "BOGUS".to_i does. */
  lemma StringToIWithoutDigits(s: string)
    requires s != [] && !IsDigit(s[0]) && !IsSpace(s[0]) && s[0] != '-' && s[0] != '+'
    ensures StringToI(s) == 0
  {
  }
}
