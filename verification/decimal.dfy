/**
 * Bytes, ASCII digits and decimal numerals.
 *
 * This module stands in for the two pieces of library code the engine leans
 * on when it reads and writes numbers: the `atoi` crate (`ascii_to_digit`,
 * `FromRadix10Checked::from_radix_10_checked`, `atoi::atoi`) and the standard
 * library's decimal formatting of an unsigned integer (`{}` in `write!`).
 * Each is a recursive definition over the digits rather than the library's
 * loop. `atoi::atoi` is defined for unsigned digit runs only: the leading
 * sign it also accepts is not modelled.
 */
module Decimal {
  import opened Wrappers

  /** One byte of input (`u8`). */
  type byte = b: int | 0 <= b < 256

  const ZERO: byte := 48  // b'0'
  const DOT: byte := 46   // b'.'

  predicate IsAscii(s: string) {
    forall i | 0 <= i < |s| :: s[i] as int < 256
  }

  /** The byte string of an ASCII string literal, as Rust's `b"..."` writes it. */
  function Ascii(s: string): (r: seq<byte>)
    requires IsAscii(s)
    ensures |r| == |s|
    ensures forall i | 0 <= i < |s| :: r[i] == s[i] as int
  {
    seq(|s|, i requires 0 <= i < |s| => s[i] as int)
  }

  lemma AsciiAppend(a: string, b: string)
    requires IsAscii(a) && IsAscii(b)
    ensures IsAscii(a + b) && Ascii(a + b) == Ascii(a) + Ascii(b)
  {
  }

  predicate IsDigit(b: byte) {
    ZERO <= b <= ZERO + 9
  }

  predicate AllDigits(s: seq<byte>) {
    forall i | 0 <= i < |s| :: IsDigit(s[i])
  }

  /** `atoi::ascii_to_digit`: the value of an ASCII decimal digit, None for any other byte. */
  function AsciiToDigit(b: byte): (r: Option<nat>)
    ensures r.Some? <==> IsDigit(b)
    ensures r.Some? ==> r.value <= 9 && b == ZERO + r.value
  {
    if IsDigit(b) then Some(b - ZERO) else None
  }

  function Pow10(n: nat): nat
  {
    TenToThe(n)
  }

  /** Pow10, one factor of ten at a time. */
  function TenToThe(n: nat): (r: nat)
    ensures r >= 1
  {
    if n == 0 then 1 else 10 * TenToThe(n - 1)
  }

  lemma {:induction false} Pow10Add(a: nat, b: nat)
    ensures Pow10(a + b) == Pow10(a) * Pow10(b)
    decreases b
  {
    if b > 0 {
      Pow10Add(a, b - 1);
      calc {
        Pow10(a + b);
        10 * Pow10(a + b - 1);
        10 * (Pow10(a) * Pow10(b - 1));
        Pow10(a) * (10 * Pow10(b - 1));
      }
    }
  }

  lemma {:induction false} Pow10Monotone(a: nat, b: nat)
    requires a <= b
    ensures Pow10(a) <= Pow10(b)
    decreases b
  {
    if a < b {
      Pow10Monotone(a, b - 1);
    }
  }

  /** The value of a numeral, most significant digit first. */
  function DigitsValue(s: seq<byte>): nat
    requires AllDigits(s)
  {
    Horner(s)
  }

  /** DigitsValue, one digit at a time from the right. */
  function Horner(s: seq<byte>): (v: nat)
    requires AllDigits(s)
    ensures v < Pow10(|s|)
    decreases |s|
  {
    if s == [] then 0 else Horner(s[..|s| - 1]) * 10 + (s[|s| - 1] - ZERO)
  }

  /** A string of k ASCII zeros. */
  function Zeros(k: nat): (r: seq<byte>)
    ensures |r| == k && AllDigits(r)
  {
    seq(k, _ => ZERO)
  }

  /** Reading a numeral in two parts: the left part's value is shifted by the right part's length. */
  lemma {:induction false} DigitsAppend(a: seq<byte>, b: seq<byte>)
    requires AllDigits(a) && AllDigits(b)
    ensures AllDigits(a + b)
    ensures DigitsValue(a + b) == DigitsValue(a) * Pow10(|b|) + DigitsValue(b)
    decreases |b|
  {
    if b == [] {
      assert a + b == a;
    } else {
      var b' := b[..|b| - 1];
      var d := b[|b| - 1] - ZERO;
      assert (a + b)[..|a + b| - 1] == a + b';
      DigitsAppend(a, b');
      var x, p, y := DigitsValue(a), Pow10(|b'|), DigitsValue(b');
      assert DigitsValue(a + b) == (x * p + y) * 10 + d;
      assert DigitsValue(b) == y * 10 + d;
      assert Pow10(|b|) == 10 * p;
      ShiftStep(x, p, y, d);
    }
  }

  lemma ShiftStep(x: int, p: int, y: int, d: int)
    ensures (x * p + y) * 10 + d == x * (10 * p) + (y * 10 + d)
  {
  }

  lemma {:induction false} ZerosValue(k: nat)
    ensures DigitsValue(Zeros(k)) == 0
    decreases k
  {
    if k > 0 {
      assert Zeros(k)[..k - 1] == Zeros(k - 1);
      ZerosValue(k - 1);
    }
  }

  /** Leading zeros do not change a numeral's value, trailing zeros scale it. */
  lemma ZerosPadding(s: seq<byte>, k: nat)
    requires AllDigits(s)
    ensures AllDigits(Zeros(k) + s) && DigitsValue(Zeros(k) + s) == DigitsValue(s)
    ensures AllDigits(s + Zeros(k)) && DigitsValue(s + Zeros(k)) == DigitsValue(s) * Pow10(k)
  {
    DigitsAppend(Zeros(k), s);
    DigitsAppend(s, Zeros(k));
    ZerosValue(k);
  }

  /** A numeral whose first digit is not zero is at least 10^(length-1). */
  lemma {:induction false} DigitsLowerBound(s: seq<byte>)
    requires AllDigits(s) && |s| >= 1 && s[0] != ZERO
    ensures DigitsValue(s) >= Pow10(|s| - 1)
    decreases |s|
  {
    if |s| > 1 {
      DigitsLowerBound(s[..|s| - 1]);
    }
  }

  /** Length of the leading run of ASCII digits. */
  function DigitRun(s: seq<byte>): nat
  {
    RunLength(s)
  }

  /** DigitRun, one byte at a time from the left. */
  function RunLength(s: seq<byte>): (n: nat)
    ensures n <= |s|
    ensures AllDigits(s[..n])
    ensures n < |s| ==> !IsDigit(s[n])
  {
    if s == [] || !IsDigit(s[0]) then 0
    else
      var n := 1 + RunLength(s[1..]);
      assert s[..n] == [s[0]] + s[1..][..n - 1];
      n
  }

  /** The digit run of a numeral followed by a non-digit ends exactly at the numeral's end. */
  lemma DigitRunOfNumeral(a: seq<byte>, b: seq<byte>)
    requires AllDigits(a)
    requires b != [] ==> !IsDigit(b[0])
    ensures DigitRun(a + b) == |a| && (a + b)[..|a|] == a
  {
  }

  /**
   * `u64::from_radix_10_checked` (atoi crate): reads the leading run of
   * digits and returns its value, or None when the value exceeds max,
   * together with the number of bytes the run takes. With no leading
   * digit it returns (Some(0), 0).
   */
  function FromRadix10Checked(s: seq<byte>, max: nat): (r: (Option<nat>, nat))
  {
    var n := DigitRun(s);
    var v := DigitsValue(s[..n]);
    (if v <= max then Some(v) else None, n)
  }

  /**
   * `atoi::atoi` for an unsigned type whose largest value is max: the value
   * of the leading run of digits, None when there is no digit or the value
   * overflows. Bytes after the run are ignored. A leading `+` or `-` is not
   * read as a sign: "+1" and "-0", which the crate reads as 1 and 0, have no
   * leading digit here and give None.
   */
  function Atoi(s: seq<byte>, max: nat): (r: Option<nat>)
  {
    var (v, n) := FromRadix10Checked(s, max);
    if n == 0 then None else v
  }

  /** A numeral as Rust writes an unsigned integer: at least one digit, no leading zero. */
  predicate Canonical(s: seq<byte>) {
    1 <= |s| && AllDigits(s) && (s[0] == ZERO ==> |s| == 1)
  }

  /** Rust's `{}` formatting of an unsigned integer. */
  function NatToDecimal(n: nat): seq<byte>
  {
    DecimalDigits(n)
  }

  /** NatToDecimal, one digit at a time from the right. */
  function DecimalDigits(n: nat): (r: seq<byte>)
    ensures Canonical(r)
    ensures DigitsValue(r) == n
    decreases n
  {
    if n < 10 then [ZERO + n]
    else
      var r := DecimalDigits(n / 10) + [ZERO + n % 10];
      assert r[..|r| - 1] == DecimalDigits(n / 10);
      r
  }

  /** Every canonical numeral is the formatting of its own value. */
  lemma {:induction false} CanonicalIsFormatted(s: seq<byte>)
    requires Canonical(s)
    ensures NatToDecimal(DigitsValue(s)) == s
    decreases |s|
  {
    if |s| > 1 {
      var p := s[..|s| - 1];
      assert p[0] == s[0];
      DigitsLowerBound(p);
      CanonicalIsFormatted(p);
      var v := DigitsValue(s);
      assert v / 10 == DigitsValue(p) && v % 10 == s[|s| - 1] - ZERO;
    }
  }

  /** Lengths of formatted numbers: n has at most k digits exactly when n < 10^k. */
  lemma NatToDecimalLength(n: nat, k: nat)
    requires k >= 1
    ensures |NatToDecimal(n)| <= k <==> n < Pow10(k)
  {
    var r := NatToDecimal(n);
    if |r| <= k {
      Pow10Monotone(|r|, k);
    } else {
      DigitsLowerBound(r);
      Pow10Monotone(k, |r| - 1);
    }
  }

  /** Numerals of the same length with the same value are the same numeral. */
  lemma {:induction false} DigitsInjective(a: seq<byte>, b: seq<byte>)
    requires AllDigits(a) && AllDigits(b) && |a| == |b|
    requires DigitsValue(a) == DigitsValue(b)
    ensures a == b
    decreases |a|
  {
    if a != [] {
      var n := |a| - 1;
      var va, vb := DigitsValue(a[..n]), DigitsValue(b[..n]);
      var da, db := a[n] - ZERO, b[n] - ZERO;
      assert va * 10 + da == vb * 10 + db;
      assert da == (va * 10 + da) % 10 && db == (vb * 10 + db) % 10;
      assert va == (va * 10 + da) / 10 && vb == (vb * 10 + db) / 10;
      DigitsInjective(a[..n], b[..n]);
      assert a == a[..n] + [a[n]] && b == b[..n] + [b[n]];
    }
  }

  /** The value of a four-digit numeral, digit by digit. */
  lemma DigitsValueOfFour(s: seq<byte>)
    requires |s| == 4 && AllDigits(s)
    ensures DigitsValue(s) == 1000 * (s[0] - ZERO) + 100 * (s[1] - ZERO) + 10 * (s[2] - ZERO) + (s[3] - ZERO)
  {
    var d0, d1, d2, d3 := s[0] - ZERO, s[1] - ZERO, s[2] - ZERO, s[3] - ZERO;
    assert s[..1][..0] == [];
    assert DigitsValue(s[..1]) == d0;
    assert s[..2][..1] == s[..1];
    assert DigitsValue(s[..2]) == d0 * 10 + d1;
    assert s[..3][..2] == s[..2];
    assert DigitsValue(s[..3]) == (d0 * 10 + d1) * 10 + d2;
    assert s[..4] == s;
    assert DigitsValue(s) == ((d0 * 10 + d1) * 10 + d2) * 10 + d3;
  }
}
