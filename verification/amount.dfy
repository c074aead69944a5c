/**
 * The `Amount` fixed-point type (src/amount.rs): a `u64` holding the value
 * times 10^4, with checked arithmetic, a byte-string parser and a formatter.
 */
module Amounts {
  import opened Wrappers
  import opened Decimal

  const U64_MAX: nat := 0xFFFF_FFFF_FFFF_FFFF

  /** Rust's `u64`. */
  type U64 = x: int | 0 <= x <= 0xFFFF_FFFF_FFFF_FFFF

  /** Rust's `u16`, the type the parser accumulates the fraction in. */
  type U16 = x: int | 0 <= x <= 0xFFFF

  /** Number of decimal places kept, and 10 to that power. */
  const PLACES: nat := 4
  const PLACES_MOD: nat := 10000

  lemma PlacesModIsPow10()
    ensures PLACES_MOD == Pow10(PLACES)
  {
  }

  /** A non-negative decimal amount, stored as its value times PLACES_MOD. */
  datatype Amount = Amount(scaled: U64)

  /** `Amount::zero`: the amount zero, the neutral element of CheckedAdd and CheckedSub. */
  function Zero(): (r: Amount)
    ensures forall a: Amount {:trigger CheckedAdd(a, r)} :: CheckedAdd(a, r) == Some(a)
    ensures forall a: Amount {:trigger CheckedSub(a, r)} :: CheckedSub(a, r) == Some(a)
  {
    Amount(0)
  }

  /** `Amount::checked_add`: the exact sum, or None when it does not fit in a `u64`. */
  function CheckedAdd(a: Amount, b: Amount): (r: Option<Amount>)
    ensures r.Some? <==> a.scaled + b.scaled <= U64_MAX
    ensures r.Some? ==> r.value.scaled == a.scaled + b.scaled
  {
    if a.scaled + b.scaled <= U64_MAX then Some(Amount(a.scaled + b.scaled)) else None
  }

  /** `Amount::checked_sub`: the exact difference, or None when it would be negative. */
  function CheckedSub(a: Amount, b: Amount): (r: Option<Amount>)
    ensures r.Some? <==> b.scaled <= a.scaled
    ensures r.Some? ==> r.value.scaled == a.scaled - b.scaled
  {
    if b.scaled <= a.scaled then Some(Amount(a.scaled - b.scaled)) else None
  }

  /** CheckedSub undoes CheckedAdd, and the other way round. */
  lemma AddSubInverse(a: Amount, b: Amount, c: Amount)
    ensures CheckedAdd(a, b) == Some(c) <==> CheckedSub(c, b) == Some(a)
  {
  }

  // ---------------------------------------------------------------------
  // Parsing
  // ---------------------------------------------------------------------

  /**
   * The value of the digits after the decimal point, in units of 10^-4:
   * the first PLACES digits, padded on the right with zeros. Digits past
   * the fourth are dropped, not rounded.
   */
  function FracValue(f: seq<byte>): (v: nat)
    requires AllDigits(f)
    ensures v < PLACES_MOD
  {
    var k := if |f| < PLACES then |f| else PLACES;
    DigitsValue(f[..k] + Zeros(PLACES - k))
  }

  /**
   * What `Amount::parse` accepts and returns: an optional run of digits
   * (the whole part), then either the end of input or a `.` followed only
   * by digits. The value is the whole part times PLACES_MOD plus FracValue
   * of the fraction digits, and must fit in a `u64`. Empty input is refused.
   */
  function ParseSpec(bytes: seq<byte>): Option<Amount>
  {
    if |bytes| == 0 then None
    else
      var n := DigitRun(bytes);
      var whole := DigitsValue(bytes[..n]) * PLACES_MOD;
      if whole > U64_MAX then None
      else if n == |bytes| then Some(Amount(whole))
      else if bytes[n] != DOT || !AllDigits(bytes[n + 1..]) then None
      else if whole + FracValue(bytes[n + 1..]) > U64_MAX then None
      else Some(Amount(whole + FracValue(bytes[n + 1..])))
  }

  /** One step of the fraction loop: adding a digit at its place weight. */
  lemma FracStep(f: seq<byte>, place: nat)
    requires place < PLACES && place < |f| && AllDigits(f[..place + 1])
    ensures AllDigits(f[..place])
    ensures DigitsValue(f[..place + 1]) * Pow10(PLACES - place - 1)
         == DigitsValue(f[..place]) * Pow10(PLACES - place) + (f[place] - ZERO) * Pow10(PLACES - place - 1)
    ensures DigitsValue(f[..place + 1]) * Pow10(PLACES - place - 1) < PLACES_MOD
  {
    assert f[..place + 1][..place] == f[..place];
    var x, d, p := DigitsValue(f[..place]), f[place] - ZERO, Pow10(PLACES - place - 1);
    assert DigitsValue(f[..place + 1]) == x * 10 + d;
    assert Pow10(PLACES - place) == 10 * p;
    assert (x * 10 + d) * p == x * (10 * p) + d * p;
    Pow10Add(place + 1, PLACES - place - 1);
    assert DigitsValue(f[..place + 1]) < Pow10(place + 1);
  }

  /** The fraction value computed by the loop equals FracValue. */
  lemma FracValueOfPrefix(f: seq<byte>, k: nat)
    requires AllDigits(f) && k == (if |f| < PLACES then |f| else PLACES)
    ensures FracValue(f) == DigitsValue(f[..k]) * Pow10(PLACES - k)
  {
    ZerosPadding(f[..k], PLACES - k);
  }

  /** ParseSpec once the whole part has been read and a `.` follows it. */
  lemma ParseSpecAfterDot(bytes: seq<byte>, n: nat, whole: nat)
    requires 0 < |bytes| && n == DigitRun(bytes) && n < |bytes| && bytes[n] == DOT
    requires whole == DigitsValue(bytes[..n]) * PLACES_MOD <= U64_MAX
    ensures !AllDigits(bytes[n + 1..]) ==> ParseSpec(bytes) == None
    ensures AllDigits(bytes[n + 1..]) ==>
      ParseSpec(bytes) == if whole + FracValue(bytes[n + 1..]) > U64_MAX then None
                          else Some(Amount(whole + FracValue(bytes[n + 1..])))
  {
  }

  /**
   * `Amount::parse`: reads the whole part with `from_radix_10_checked`,
   * scales it with a checked multiplication, then looks at the byte after
   * the digits: none ends the amount, a `.` starts the fraction, anything
   * else is refused.
   */
  method Parse(bytes: seq<byte>) returns (r: Option<Amount>)
    ensures r == ParseSpec(bytes)
  {
    if |bytes| == 0 {
      return None;
    }
    var (whole, size) := FromRadix10Checked(bytes, U64_MAX);
    if whole.None? || whole.value * PLACES_MOD > U64_MAX {
      return None;
    }
    var scaledWhole := whole.value * PLACES_MOD;
    if size == |bytes| {
      return Some(Amount(scaledWhole));
    }
    if bytes[size] != DOT {
      return None;
    }
    ParseSpecAfterDot(bytes, size, scaledWhole);
    r := ParseFraction(scaledWhole, bytes[size + 1..]);
  }

  /**
   * The `.` branch of `Amount::parse`: up to PLACES fraction digits are
   * accumulated into a `u16`, leaving the loop early when the input runs
   * out; the truncated digits past the fourth are then checked one by one;
   * finally the fraction is added to the scaled whole part with a check.
   */
  method ParseFraction(scaledWhole: U64, fractB: seq<byte>) returns (r: Option<Amount>)
    ensures !AllDigits(fractB) ==> r == None
    ensures AllDigits(fractB) ==>
      r == if scaledWhole + FracValue(fractB) > U64_MAX then None
           else Some(Amount(scaledWhole + FracValue(fractB)))
  {
    var fract: U16 := 0;
    ghost var taken := 0;
    for place := 0 to PLACES
      invariant taken == place <= |fractB|
      invariant AllDigits(fractB[..place])
      invariant fract == DigitsValue(fractB[..place]) * Pow10(PLACES - place)
    {
      if place >= |fractB| {
        break;
      }
      var digit := AsciiToDigit(fractB[place]);
      if digit.None? {
        return None;
      }
      FracStep(fractB, place);
      fract := fract + digit.value * Pow10(PLACES - place - 1);
      taken := place + 1;
    }
    var rest := if PLACES <= |fractB| then fractB[PLACES..] else [];
    for i := 0 to |rest|
      invariant AllDigits(rest[..i])
    {
      if AsciiToDigit(rest[i]).None? {
        assert fractB[PLACES + i] == rest[i];
        return None;
      }
    }
    assert fractB == fractB[..taken] + rest;
    assert rest[..|rest|] == rest;
    FracValueOfPrefix(fractB, taken);
    if scaledWhole + fract > U64_MAX {
      return None;
    }
    return Some(Amount(scaledWhole + fract));
  }

  // ---------------------------------------------------------------------
  // Formatting
  // ---------------------------------------------------------------------

  /** A numeral with its trailing zeros removed. */
  function StripTrailingZeros(s: seq<byte>): seq<byte>
  {
    StripZeros(s)
  }

  /** StripTrailingZeros, one zero at a time. */
  function StripZeros(s: seq<byte>): (r: seq<byte>)
    ensures |r| <= |s| && s == r + Zeros(|s| - |r|)
    ensures r != [] ==> r[|r| - 1] != ZERO
  {
    if s != [] && s[|s| - 1] == ZERO then
      var r := StripZeros(s[..|s| - 1]);
      assert s == s[..|s| - 1] + [ZERO];
      r
    else
      s
  }

  /**
   * What `Display for Amount` writes: the whole part, then, only when the
   * remainder is not zero, a `.` and the remainder written as an integer
   * with its trailing zeros removed.
   */
  function FormatSpec(a: Amount): seq<byte>
  {
    var whole := a.scaled / PLACES_MOD;
    var fract := a.scaled % PLACES_MOD;
    NatToDecimal(whole) + (if fract == 0 then [] else [DOT] + StripTrailingZeros(NatToDecimal(fract)))
  }

  /** Dividing a multiple of ten by ten drops one trailing zero of its numeral. */
  lemma NatToDecimalDiv10(f: nat)
    requires f > 0 && f % 10 == 0
    ensures StripTrailingZeros(NatToDecimal(f)) == StripTrailingZeros(NatToDecimal(f / 10))
  {
    var s := NatToDecimal(f);
    assert s[..|s| - 1] == NatToDecimal(f / 10);
  }

  /** `Display for Amount`: the source's loop dividing the remainder by ten. */
  method Format(a: Amount) returns (s: seq<byte>)
    ensures s == FormatSpec(a)
  {
    var whole := a.scaled / PLACES_MOD;
    var fract := a.scaled % PLACES_MOD;
    s := NatToDecimal(whole);
    if fract > 0 {
      while fract % 10 == 0
        invariant 0 < fract
        invariant StripTrailingZeros(NatToDecimal(fract)) == StripTrailingZeros(NatToDecimal(a.scaled % PLACES_MOD))
        decreases fract
      {
        NatToDecimalDiv10(fract);
        fract := fract / 10;
      }
      var digits := NatToDecimal(fract);
      assert digits[|digits| - 1] != ZERO;
      s := s + [DOT] + digits;
    }
  }

  /** The remainder written with its leading zeros to exactly PLACES digits. */
  function FourPlaces(fract: nat): (r: seq<byte>)
    requires fract < PLACES_MOD
    ensures |r| == PLACES && AllDigits(r) && DigitsValue(r) == fract
  {
    var digits := NatToDecimal(fract);
    NatToDecimalLength(fract, PLACES);
    ZerosPadding(digits, PLACES - |digits|);
    Zeros(PLACES - |digits|) + digits
  }

  /**
   * The formatter as evidently intended: the remainder written with its
   * leading zeros to PLACES digits, then trailing zeros removed.
   */
  function FormatFixed(a: Amount): seq<byte>
  {
    var whole := a.scaled / PLACES_MOD;
    var fract := a.scaled % PLACES_MOD;
    NatToDecimal(whole) + (if fract == 0 then [] else [DOT] + StripTrailingZeros(FourPlaces(fract)))
  }
}
