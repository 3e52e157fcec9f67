/** Rendering natural numbers as digit strings, the way Go's fmt package prints
    `%d` (base 10) and the digits of `%#x` (base 16, lower case), together with
    the parser that reads them back. */
module Numerals {

  /** The value of a lower-case hexadecimal digit character, or -1. */
  function DigitValue(c: char): int {
    if '0' <= c <= '9' then c as int - '0' as int
    else if 'a' <= c <= 'f' then c as int - 'a' as int + 10
    else -1
  }

  predicate IsDigit(c: char, base: nat) {
    0 <= DigitValue(c) < base
  }

  /** The two bases the driver prints in. */
  predicate IsBase(base: nat) { base == 10 || base == 16 }

  /** Euclidean division by a base, in the linear terms the proofs use. */
  lemma DivideByBase(n: nat, base: nat)
    requires IsBase(base)
    ensures n == n / base * base + n % base && n % base < base
    ensures n >= base ==> 1 <= n / base < n
  {
    if base == 10 { assert n / base == n / 10; } else { assert n / base == n / 16; }
  }

  predicate AllDigits(s: string, base: nat) {
    forall k :: 0 <= k < |s| ==> IsDigit(s[k], base)
  }

  /** The character that stands for digit d. */
  function DigitChar(d: nat): (c: char)
    requires d < 16
    ensures DigitValue(c) == d
  {
    if d < 10 then ('0' as int + d) as char else ('a' as int + d - 10) as char
  }

  /** n written in the given base, most significant digit first, without
      leading zeros (zero itself is "0"). */
  function NatToString(n: nat, base: nat): (s: string)
    requires IsBase(base)
    ensures |s| >= 1 && AllDigits(s, base)
    ensures |s| > 1 ==> s[0] != '0'
    decreases n
  {
    DivideByBase(n, base);
    if n < base then [DigitChar(n)]
    else NatToString(n / base, base) + [DigitChar(n % base)]
  }

  function Decimal(n: nat): string { NatToString(n, 10) }

  function Hex(n: nat): string { NatToString(n, 16) }

  /** The value of a string of digits, read most significant digit first. */
  function ParseNat(s: string, base: nat): nat
    requires AllDigits(s, base)
  {
    if s == [] then 0
    else ParseNat(s[..|s| - 1], base) * base + DigitValue(s[|s| - 1])
  }

  /** Reading back a rendered number gives the number. */
  lemma {:induction false} ParseNatToString(n: nat, base: nat)
    requires IsBase(base)
    ensures ParseNat(NatToString(n, base), base) == n
    decreases n
  {
    var s := NatToString(n, base);
    DivideByBase(n, base);
    if n >= base {
      ParseNatToString(n / base, base);
      assert s[..|s| - 1] == NatToString(n / base, base);
    }
  }

  /** The number of leading characters of s that are digits of the base. */
  function DigitRun(s: string, base: nat): (k: nat)
    ensures k <= |s|
    ensures AllDigits(s[..k], base)
    ensures k < |s| ==> !IsDigit(s[k], base)
  {
    if s == [] || !IsDigit(s[0], base) then 0
    else
      var k := 1 + DigitRun(s[1..], base);
      assert forall i :: 1 <= i < k ==> s[..k][i] == s[1..][..k - 1][i - 1];
      k
  }

  /** The digit run of a numeral followed by a non-digit is the numeral. */
  lemma {:induction false} DigitRunOfNumeral(d: string, t: string, base: nat)
    requires AllDigits(d, base)
    requires t == [] || !IsDigit(t[0], base)
    ensures DigitRun(d + t, base) == |d|
    decreases |d|
  {
    if d != [] {
      assert (d + t)[1..] == d[1..] + t;
      DigitRunOfNumeral(d[1..], t, base);
    }
  }
}
