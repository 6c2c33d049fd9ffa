/**
 * Octets, C string literals and the `%u` decimal conversion that the
 * firmware's `snprintf` call performs.
 */
module Ascii {

  /** One octet, as C's `char` and `uint8_t` hold it. */
  type byte = b: int | 0 <= b < 256

  const NUL: byte := 0
  const ZERO: byte := 48   // '0'

  /** The values of a C `size_t` / `unsigned int` on the 32-bit target. */
  const UINT32_LIMIT: nat := 0x1_0000_0000

  predicate IsAscii(s: string) {
    forall i :: 0 <= i < |s| ==> s[i] as int < 128
  }

  /** The octets of an ASCII string, one per character. */
  function Bytes(s: string): (r: seq<byte>)
    requires IsAscii(s)
    ensures |r| == |s|
    ensures forall i :: 0 <= i < |s| ==> r[i] == s[i] as int
  {
    seq(|s|, i requires 0 <= i < |s| => s[i] as int)
  }

  /** The storage C gives a string literal: its characters, then a terminating NUL. */
  function CLiteral(s: string): seq<byte>
    requires IsAscii(s)
  {
    Bytes(s) + [NUL]
  }

  predicate IsDigit(b: byte) {
    ZERO <= b <= ZERO + 9
  }

  predicate AllDigits(d: seq<byte>) {
    forall i :: 0 <= i < |d| ==> IsDigit(d[i])
  }

  /** A digit run as `%u` prints it: not empty, no leading zero unless it is "0". */
  predicate Canonical(d: seq<byte>) {
    |d| >= 1 && AllDigits(d) && (d[0] == ZERO ==> |d| == 1)
  }

  function Digit(v: nat): (b: byte)
    requires v < 10
    ensures IsDigit(b) && b - ZERO == v
  {
    ZERO + v
  }

  /** `%u`: the decimal digits of n, most significant first. */
  function Decimal(n: nat): (r: seq<byte>)
    ensures Canonical(r)
    ensures r[|r| - 1] - ZERO == n % 10
  {
    if n < 10 then [Digit(n)] else Decimal(n / 10) + [Digit(n % 10)]
  }

  /** The number a run of decimal digits denotes (the reading side of `%u`). */
  function DigitsValue(d: seq<byte>): nat
    requires AllDigits(d)
  {
    if d == [] then 0 else 10 * DigitsValue(d[..|d| - 1]) + (d[|d| - 1] - ZERO)
  }

  /** The length of the run of digits that `s` starts with. */
  function DigitRun(s: seq<byte>): (k: nat)
    ensures k <= |s|
    ensures AllDigits(s[..k])
    ensures k < |s| ==> !IsDigit(s[k])
  {
    if s == [] || !IsDigit(s[0]) then 0 else 1 + DigitRun(s[1..])
  }

  function Pow10(k: nat): (p: nat)
    ensures p >= 1
  {
    if k == 0 then 1 else 10 * Pow10(k - 1)
  }

  /** Reading back what `%u` printed gives the number printed. */
  lemma {:induction false} DigitsValueOfDecimal(n: nat)
    ensures DigitsValue(Decimal(n)) == n
  {
    if n >= 10 {
      var d := Decimal(n);
      assert d[..|d| - 1] == Decimal(n / 10);
      DigitsValueOfDecimal(n / 10);
    }
  }

  /** A canonical digit run with a non-zero leading digit denotes a positive number. */
  lemma {:induction false} LeadingDigitPositive(d: seq<byte>)
    requires Canonical(d) && d[0] != ZERO
    ensures DigitsValue(d) >= 1
  {
    if |d| > 1 {
      var p := d[..|d| - 1];
      assert p[0] == d[0];
      LeadingDigitPositive(p);
    }
  }

  /** Every canonical digit run is what `%u` prints for the number it denotes. */
  lemma {:induction false} DecimalOfDigitsValue(d: seq<byte>)
    requires Canonical(d)
    ensures Decimal(DigitsValue(d)) == d
  {
    if |d| > 1 {
      var p := d[..|d| - 1];
      assert p[0] == d[0];
      LeadingDigitPositive(p);
      DecimalOfDigitsValue(p);
      var n := DigitsValue(d);
      assert n / 10 == DigitsValue(p) && n % 10 == d[|d| - 1] - ZERO;
      assert d == p + [d[|d| - 1]];
    }
  }

  /** `%u` never prints more than k digits for a number below 10^k. */
  lemma {:induction false} DecimalLength(n: nat, k: nat)
    requires 1 <= k && n < Pow10(k)
    ensures |Decimal(n)| <= k
  {
    if n >= 10 {
      assert k >= 2;
      DecimalLength(n / 10, k - 1);
    }
  }

  /** A number below 2^32 prints as at most ten digits. */
  lemma Uint32Digits(n: nat)
    requires n < UINT32_LIMIT
    ensures |Decimal(n)| <= 10
  {
    assert Pow10(10) == 10_000_000_000;
    DecimalLength(n, 10);
  }

  /** A digit run followed by a non-digit is read up to the non-digit and no further. */
  lemma {:induction false} DigitRunOfDigits(d: seq<byte>, rest: seq<byte>)
    requires AllDigits(d)
    requires rest == [] || !IsDigit(rest[0])
    ensures DigitRun(d + rest) == |d|
  {
    if d != [] {
      assert (d + rest)[1..] == d[1..] + rest;
      DigitRunOfDigits(d[1..], rest);
    }
  }
}
