/** Decimal numbers as text: what `std::to_string` prints and what `strtoul` and
    the Python constructors read back. */
module Decimal {

  predicate IsDigit(c: char) { '0' <= c <= '9' }

  function DigitChar(d: nat): (c: char)
    requires d < 10
    ensures IsDigit(c) && DigitValue(c) == d
  {
    '0' + d as char
  }

  function DigitValue(c: char): (d: nat)
    requires IsDigit(c)
    ensures d < 10
  {
    (c as int) - ('0' as int)
  }

  /** `std::to_string` of an unsigned number. */
  function ToString(n: nat): (s: string)
    ensures s != [] && forall i :: 0 <= i < |s| ==> IsDigit(s[i])
  {
    if n < 10 then [DigitChar(n)] else ToString(n / 10) + [DigitChar(n % 10)]
  }

  /** The number a string of digits denotes. */
  function Value(s: string): nat
    requires forall i :: 0 <= i < |s| ==> IsDigit(s[i])
  {
    if s == [] then 0 else 10 * Value(s[..|s| - 1]) + DigitValue(s[|s| - 1])
  }

  lemma {:induction false} ValueOfToString(n: nat)
    ensures Value(ToString(n)) == n
  {
    if n >= 10 {
      ValueOfToString(n / 10);
      assert ToString(n)[..|ToString(n)| - 1] == ToString(n / 10);
    }
  }

  /** Length of the longest prefix of digits. */
  function DigitCount(s: string): (k: nat)
    ensures k <= |s|
    ensures forall i :: 0 <= i < k ==> IsDigit(s[i])
    ensures k < |s| ==> !IsDigit(s[k])
  {
    if s == [] || !IsDigit(s[0]) then 0 else 1 + DigitCount(s[1..])
  }

  predicate IsSpace(c: char) {
    c == ' ' || c == '\t' || c == '\n' || c as int == 11 || c as int == 12 || c == '\r'
  }

  function SkipSpace(s: string): string {
    if s != [] && IsSpace(s[0]) then SkipSpace(s[1..]) else s
  }

  const ULONG_MAX := 0xffff_ffff_ffff_ffff

  /** `strtoul(s, nullptr, 10)` with a 64 bit `unsigned long`: blanks, an optional sign,
      digits; out of range values saturate, a minus sign negates modulo 2^64. */
  function Strtoul(s: string): (n: nat)
    ensures n <= ULONG_MAX
  {
    var t := SkipSpace(s);
    var negative := t != [] && t[0] == '-';
    var u := if t != [] && (t[0] == '-' || t[0] == '+') then t[1..] else t;
    var v := Value(u[..DigitCount(u)]);
    if v > ULONG_MAX then ULONG_MAX
    else if negative && v != 0 then ULONG_MAX + 1 - v
    else v
  }

  lemma {:induction false} DigitCountAll(s: string)
    requires forall i :: 0 <= i < |s| ==> IsDigit(s[i])
    ensures DigitCount(s) == |s|
  {
    if s != [] {
      DigitCountAll(s[1..]);
    }
  }

  /** `strtoul` reads back what `to_string` printed. */
  lemma StrtoulOfToString(n: nat)
    requires n <= ULONG_MAX
    ensures Strtoul(ToString(n)) == n
  {
    var s := ToString(n);
    assert IsDigit(s[0]);
    DigitCountAll(s);
    ValueOfToString(n);
    assert s[..|s|] == s;
  }

  /** A number written with digits only, as `int` and the fixed width constructors read it. */
  function Digits(s: string): (n: int)
    ensures n >= -1
  {
    if s != [] && DigitCount(s) == |s| then Value(s) else -1
  }

  lemma DigitsOfToString(n: nat)
    ensures Digits(ToString(n)) == n
  {
    DigitCountAll(ToString(n));
    ValueOfToString(n);
  }

  /** An octet of a dotted quad: no leading zero, at most 255. */
  function Octet(s: string): int {
    if 1 <= |s| <= 3 && (|s| == 1 || s[0] != '0') && Digits(s) < 256 then Digits(s) else -1
  }

  lemma OctetOfToString(n: nat)
    requires n < 256
    ensures Octet(ToString(n)) == n
  {
    DigitsOfToString(n);
    if n >= 10 {
      assert ToString(n) == ToString(n / 10) + [DigitChar(n % 10)];
      if n >= 100 {
        assert ToString(n / 10) == ToString(n / 100) + [DigitChar(n / 10 % 10)];
      }
    }
  }
}
