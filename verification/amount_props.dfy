/**
 * Properties of `Amount::parse` and `Display for Amount` (src/amount.rs),
 * stated on ParseSpec, FormatSpec and FormatFixed, and the test vectors of
 * the module's unit tests.
 */
module AmountLemmas {
  import opened Wrappers
  import opened Decimal
  import opened Amounts

  // ---------------------------------------------------------------------
  // The shapes of input the parser accepts and refuses
  // ---------------------------------------------------------------------

  /** A bare run of digits is the whole part; it is accepted exactly when its value times 10^4 fits. */
  lemma ParseWhole(d: seq<byte>)
    requires |d| >= 1 && AllDigits(d)
    ensures ParseSpec(d) == if DigitsValue(d) * PLACES_MOD <= U64_MAX
                            then Some(Amount(DigitsValue(d) * PLACES_MOD)) else None
  {
    DigitRunOfNumeral(d, []);
    assert d + [] == d;
  }

  /**
   * Digits, a `.`, then digits: the value is the whole part times 10^4
   * plus FracValue of the fraction digits, refused only when it overflows.
   * The whole part and the fraction may each be empty.
   */
  lemma ParseDecimal(d: seq<byte>, f: seq<byte>)
    requires AllDigits(d) && AllDigits(f)
    ensures ParseSpec(d + [DOT] + f) ==
      if DigitsValue(d) * PLACES_MOD + FracValue(f) <= U64_MAX
      then Some(Amount(DigitsValue(d) * PLACES_MOD + FracValue(f))) else None
  {
    if DigitsValue(d) * PLACES_MOD <= U64_MAX {
      ParseDecimalFits(d, f);
    } else {
      ParseDecimalOverflow(d, f);
    }
  }

  lemma ParseDecimalFits(d: seq<byte>, f: seq<byte>)
    requires AllDigits(d) && AllDigits(f) && DigitsValue(d) * PLACES_MOD <= U64_MAX
    ensures ParseSpec(d + [DOT] + f) ==
      if DigitsValue(d) * PLACES_MOD + FracValue(f) > U64_MAX then None
      else Some(Amount(DigitsValue(d) * PLACES_MOD + FracValue(f)))
  {
    var bytes, whole := d + [DOT] + f, DigitsValue(d) * PLACES_MOD;
    DecimalLayout(d, f);
    AfterDot(bytes, |d|, whole, f);
    assert ParseSpec(bytes) == if whole + FracValue(f) > U64_MAX then None else Some(Amount(whole + FracValue(f)));
  }

  lemma ParseDecimalOverflow(d: seq<byte>, f: seq<byte>)
    requires AllDigits(d) && AllDigits(f) && DigitsValue(d) * PLACES_MOD > U64_MAX
    ensures ParseSpec(d + [DOT] + f) == None
  {
    DecimalLayout(d, f);
    ParseSpecWholeOverflow(d + [DOT] + f, |d|);
  }

  /** ParseSpecAfterDot, with the whole part and the fraction named. */
  lemma ParseSpecOfParts(bytes: seq<byte>, d: seq<byte>, f: seq<byte>, whole: nat)
    requires AllDigits(d) && AllDigits(f)
    requires 0 < |bytes| && |d| == DigitRun(bytes) && |d| < |bytes| && bytes[|d|] == DOT
    requires whole == DigitsValue(bytes[..|d|]) * PLACES_MOD <= U64_MAX
    requires bytes[|d| + 1..] == f
    ensures ParseSpec(bytes) == if whole + FracValue(f) > U64_MAX then None else Some(Amount(whole + FracValue(f)))
  {
    AfterDot(bytes, |d|, whole, f);
  }

  lemma AfterDot(bytes: seq<byte>, n: nat, whole: nat, f: seq<byte>)
    requires 0 < |bytes| && n == DigitRun(bytes) && n < |bytes| && bytes[n] == DOT
    requires whole == DigitsValue(bytes[..n]) * PLACES_MOD <= U64_MAX
    requires AllDigits(f) && bytes[n + 1..] == f
    ensures ParseSpec(bytes) == if whole + FracValue(f) > U64_MAX then None else Some(Amount(whole + FracValue(f)))
  {
    ParseSpecAfterDot(bytes, n, whole);
  }

  /** ParseSpec refuses an input whose whole part alone overflows. */
  lemma ParseSpecWholeOverflow(bytes: seq<byte>, n: nat)
    requires 0 < |bytes| && n == DigitRun(bytes)
    requires DigitsValue(bytes[..n]) * PLACES_MOD > U64_MAX
    ensures ParseSpec(bytes) == None
  {
  }

  /** Where the parser's pieces lie in `d.f`. */
  lemma DecimalLayout(d: seq<byte>, f: seq<byte>)
    requires AllDigits(d)
    ensures |d + [DOT] + f| > 0 && DigitRun(d + [DOT] + f) == |d|
    ensures (d + [DOT] + f)[..|d|] == d && (d + [DOT] + f)[|d|] == DOT
    ensures (d + [DOT] + f)[|d| + 1..] == f
  {
    var bytes := d + [DOT] + f;
    assert bytes == d + ([DOT] + f);
    DigitRunOfNumeral(d, [DOT] + f);
  }

  /** Digits followed by any byte other than a digit or `.` are refused, whatever comes after. */
  lemma ParseStrayByte(d: seq<byte>, b: byte, rest: seq<byte>)
    requires AllDigits(d) && !IsDigit(b) && b != DOT
    ensures ParseSpec(d + [b] + rest) == None
  {
    var bytes := d + [b] + rest;
    assert bytes == d + ([b] + rest);
    DigitRunOfNumeral(d, [b] + rest);
  }

  /** A fraction holding any non-digit byte is refused, even past the fourth place. */
  lemma ParseBadFraction(d: seq<byte>, f: seq<byte>)
    requires AllDigits(d) && !AllDigits(f)
    ensures ParseSpec(d + [DOT] + f) == None
  {
    var bytes := d + [DOT] + f;
    assert bytes == d + ([DOT] + f);
    DigitRunOfNumeral(d, [DOT] + f);
    assert bytes[|d| + 1..] == f;
  }

  /** Every accepted input starts with a digit or a `.`, and the empty input is refused. */
  lemma ParseAcceptedShape(bytes: seq<byte>)
    requires ParseSpec(bytes).Some?
    ensures |bytes| >= 1 && (IsDigit(bytes[0]) || bytes[0] == DOT)
  {
  }

  // ---------------------------------------------------------------------
  // The fraction: four places, truncated, missing places count zero
  // ---------------------------------------------------------------------

  /** Places past the fourth are dropped, not rounded. */
  lemma FracTruncates(f: seq<byte>, g: seq<byte>)
    requires |f| == PLACES && AllDigits(f) && AllDigits(g)
    ensures AllDigits(f + g) && FracValue(f + g) == FracValue(f) == DigitsValue(f)
  {
    assert (f + g)[..PLACES] == f;
    assert f[..PLACES] == f;
    assert f + Zeros(0) == f;
  }

  /** A fraction of at most four places is read as its digits times the weight of the last place. */
  lemma FracOfShort(f: seq<byte>)
    requires |f| <= PLACES && AllDigits(f)
    ensures FracValue(f) == DigitsValue(f) * Pow10(PLACES - |f|)
  {
    FracValueOfPrefix(f, |f|);
    assert f[..|f|] == f;
  }

  /** A zero appended to a fraction shorter than four places changes nothing. */
  lemma FracTrailingZero(f: seq<byte>)
    requires |f| < PLACES && AllDigits(f)
    ensures AllDigits(f + [ZERO]) && FracValue(f + [ZERO]) == FracValue(f)
  {
    assert f + [ZERO] == f + Zeros(1);
    ZerosPadding(f, 1);
    FracOfShort(f);
    FracOfShort(f + [ZERO]);
    Pow10Add(1, PLACES - |f| - 1);
  }

  /** `N.` reads as `N`, and `.` alone as zero. */
  lemma ParseDotAlone(d: seq<byte>)
    requires AllDigits(d)
    ensures ParseSpec(d + [DOT]) == if DigitsValue(d) * PLACES_MOD <= U64_MAX
                                    then Some(Amount(DigitsValue(d) * PLACES_MOD)) else None
  {
    ParseDecimal(d, []);
    assert d + [DOT] + [] == d + [DOT];
    FracOfShort([]);
  }

  // ---------------------------------------------------------------------
  // Formatting and the round trip
  // ---------------------------------------------------------------------

  /** Removing trailing zeros from r followed by zeros gives back r, when r has no trailing zero. */
  lemma {:induction false} StripUnique(r: seq<byte>, k: nat)
    requires r == [] || r[|r| - 1] != ZERO
    ensures StripTrailingZeros(r + Zeros(k)) == r
    decreases k
  {
    if k == 0 {
      assert r + Zeros(0) == r;
    } else {
      var s := r + Zeros(k);
      assert s[|s| - 1] == ZERO;
      assert s[..|s| - 1] == r + Zeros(k - 1);
      StripUnique(r, k - 1);
    }
  }

  /** A numeral followed by zeros splits back into its digits and the zeros. */
  lemma AllDigitsSplit(s: seq<byte>, t: seq<byte>)
    requires AllDigits(s + t)
    ensures AllDigits(s) && AllDigits(t)
  {
    assert forall i | 0 <= i < |s| :: s[i] == (s + t)[i];
    assert forall i | 0 <= i < |t| :: t[i] == (s + t)[|s| + i];
  }

  lemma MulAssoc(x: int, y: int, z: int)
    ensures x * y * z == x * (y * z)
  {
  }

  /**
   * The fraction the parser reads back from a numeral of at most four
   * digits once its trailing zeros are removed: the numeral's value, scaled
   * by the places the numeral is short of four.
   */
  lemma FracOfStripped(p: seq<byte>)
    requires |p| <= PLACES && AllDigits(p)
    ensures AllDigits(StripTrailingZeros(p))
    ensures FracValue(StripTrailingZeros(p)) == DigitsValue(p) * Pow10(PLACES - |p|)
  {
    var s := StripTrailingZeros(p);
    var m, k := |s|, |p|;
    AllDigitsSplit(s, Zeros(k - m));
    FracOfShort(s);
    PaddedValue(p, s, PLACES - k);
  }

  /** The value of s read to four places, where p is s followed by zeros. */
  lemma PaddedValue(p: seq<byte>, s: seq<byte>, short: nat)
    requires AllDigits(s) && |s| <= |p| && p == s + Zeros(|p| - |s|) && |p| + short == PLACES
    ensures AllDigits(p)
    ensures DigitsValue(s) * Pow10(PLACES - |s|) == DigitsValue(p) * Pow10(short)
  {
    var v := DigitsValue(s);
    ZerosPadding(s, |p| - |s|);
    Pow10Add(|p| - |s|, short);
    MulAssoc(v, Pow10(|p| - |s|), Pow10(short));
  }

  /** The pieces both formatters write for an amount with a non-zero remainder. */
  lemma FormatParts(a: Amount)
    requires a.scaled % PLACES_MOD != 0
    ensures FormatSpec(a) == NatToDecimal(a.scaled / PLACES_MOD) + [DOT]
                             + StripTrailingZeros(NatToDecimal(a.scaled % PLACES_MOD))
    ensures FormatFixed(a) == NatToDecimal(a.scaled / PLACES_MOD) + [DOT]
                              + StripTrailingZeros(FourPlaces(a.scaled % PLACES_MOD))
  {
  }

  /** An amount with no remainder: both formatters write the whole part alone. */
  lemma FormatWhole(a: Amount)
    requires a.scaled % PLACES_MOD == 0
    ensures FormatSpec(a) == NatToDecimal(a.scaled / PLACES_MOD)
    ensures FormatFixed(a) == NatToDecimal(a.scaled / PLACES_MOD)
  {
    var w := NatToDecimal(a.scaled / PLACES_MOD);
    assert w + [] == w;
  }

  /** An amount with no remainder formats as its whole part alone and reads back exactly. */
  lemma FormatWholeRoundTrip(a: Amount)
    requires a.scaled % PLACES_MOD == 0
    ensures ParseSpec(FormatSpec(a)) == Some(a) && ParseSpec(FormatFixed(a)) == Some(a)
  {
    FormatWhole(a);
    ParseWhole(NatToDecimal(a.scaled / PLACES_MOD));
  }

  /** A whole part and a remainder moved up by `lost` places, in ten-thousandths. */
  function Shifted(whole: nat, fract: nat, lost: nat): nat
  {
    whole * PLACES_MOD + fract * Pow10(lost)
  }

  /**
   * What the formatter as written reads back as: the remainder comes back
   * multiplied by ten for every leading zero it lost.
   */
  lemma FormatReadsBackAs(a: Amount)
    requires a.scaled % PLACES_MOD != 0
    ensures var fract := a.scaled % PLACES_MOD;
            var lost := PLACES - |NatToDecimal(fract)|;
            0 <= lost &&
            var back := Shifted(a.scaled / PLACES_MOD, fract, lost);
            ParseSpec(FormatSpec(a)) == if back <= U64_MAX then Some(Amount(back)) else None
  {
    var whole, fract := a.scaled / PLACES_MOD, a.scaled % PLACES_MOD;
    var digits := NatToDecimal(fract);
    NatToDecimalLength(fract, PLACES);
    FracOfStripped(digits);
    FormatParts(a);
    ParseDecimal(NatToDecimal(whole), StripTrailingZeros(digits));
  }

  /**
   * The formatter as written round-trips through the parser exactly when
   * the remainder is zero or has four digits, that is, when it has no
   * leading zero to lose.
   */
  lemma FormatRoundTripIff(a: Amount)
    ensures ParseSpec(FormatSpec(a)) == Some(a) <==>
            a.scaled % PLACES_MOD == 0 || a.scaled % PLACES_MOD >= 1000
  {
    var fract := a.scaled % PLACES_MOD;
    if fract == 0 {
      FormatWholeRoundTrip(a);
    } else {
      var whole, lost := a.scaled / PLACES_MOD, PLACES - |NatToDecimal(fract)|;
      FormatReadsBackAs(a);
      NatToDecimalLength(fract, PLACES);
      NatToDecimalLength(fract, PLACES - 1);
      assert Pow10(PLACES - 1) == 1000;
      assert lost == 0 <==> fract >= 1000;
      assert a == Amount(whole * PLACES_MOD + fract);
      ShiftedIsSelf(whole, fract, lost);
    }
  }

  /** A non-zero remainder moved up by any place is no longer the remainder. */
  lemma ShiftedIsSelf(whole: nat, fract: nat, lost: nat)
    requires 0 < fract && whole * PLACES_MOD + fract <= U64_MAX
    ensures Shifted(whole, fract, lost) == whole * PLACES_MOD + fract <==> lost == 0
    ensures var back := Shifted(whole, fract, lost);
            (if back <= U64_MAX then Some(Amount(back)) else None) == Some(Amount(whole * PLACES_MOD + fract))
            <==> lost == 0
  {
    if lost > 0 {
      Pow10Monotone(1, lost);
      assert fract * Pow10(lost) >= fract * 10;
    }
  }

  /** The corrected formatter reads back as the same amount, for every amount. */
  lemma FormatFixedRoundTrip(a: Amount)
    ensures ParseSpec(FormatFixed(a)) == Some(a)
  {
    var fract := a.scaled % PLACES_MOD;
    if fract == 0 {
      FormatWholeRoundTrip(a);
    } else {
      var padded := FourPlaces(fract);
      FracOfStripped(padded);
      FormatParts(a);
      ParseDecimal(NatToDecimal(a.scaled / PLACES_MOD), StripTrailingZeros(padded));
    }
  }

  /** A fraction of one to four places without a trailing zero is never read as zero. */
  lemma FracNonZero(f: seq<byte>)
    requires 1 <= |f| <= PLACES && AllDigits(f) && f[|f| - 1] != ZERO
    ensures 0 < FracValue(f)
  {
    FracOfShort(f);
    assert f[..|f| - 1] + [f[|f| - 1]] == f;
  }

  /**
   * The amount read from `W.F` splits back into W's value and F's value,
   * and F written to four places is F followed by zeros.
   */
  lemma ParsedParts(w: seq<byte>, f: seq<byte>)
    requires AllDigits(w) && 1 <= |f| <= PLACES && AllDigits(f) && f[|f| - 1] != ZERO
    requires DigitsValue(w) * PLACES_MOD + FracValue(f) <= U64_MAX
    ensures ParseSpec(w + [DOT] + f) == Some(Amount(DigitsValue(w) * PLACES_MOD + FracValue(f)))
    ensures FracValue(f) < PLACES_MOD
    ensures var a := Amount(DigitsValue(w) * PLACES_MOD + FracValue(f));
            a.scaled / PLACES_MOD == DigitsValue(w) && a.scaled % PLACES_MOD == FracValue(f) != 0
    ensures FourPlaces(FracValue(f)) == f + Zeros(PLACES - |f|)
  {
    ParseDecimal(w, f);
    FracNonZero(f);
    FracOfShort(f);
    ZerosPadding(f, PLACES - |f|);
    DigitsInjective(FourPlaces(FracValue(f)), f + Zeros(PLACES - |f|));
  }

  /**
   * Formatting a parsed `W.F`, with W as Rust writes an unsigned integer and
   * F one to four places without a trailing zero, gives `W.F` back under
   * the corrected formatter; under the formatter as written only when F
   * does not start with a zero.
   */
  lemma ParseThenFormat(w: seq<byte>, f: seq<byte>)
    requires Canonical(w) && 1 <= |f| <= PLACES && AllDigits(f) && f[|f| - 1] != ZERO
    requires DigitsValue(w) * PLACES_MOD + FracValue(f) <= U64_MAX
    ensures ParseSpec(w + [DOT] + f).Some?
    ensures FormatFixed(ParseSpec(w + [DOT] + f).value) == w + [DOT] + f
    ensures f[0] != ZERO ==> FormatSpec(ParseSpec(w + [DOT] + f).value) == w + [DOT] + f
  {
    ParsedParts(w, f);
    var a := ParseSpec(w + [DOT] + f).value;
    CanonicalIsFormatted(w);
    StripUnique(f, PLACES - |f|);
    FormatParts(a);
    if f[0] != ZERO {
      var padded := f + Zeros(PLACES - |f|);
      assert padded[0] == f[0];
      CanonicalIsFormatted(padded);
    }
  }

  /** A bare numeral as Rust writes an unsigned integer formats back as itself. */
  lemma ParseThenFormatWhole(w: seq<byte>)
    requires Canonical(w) && DigitsValue(w) * PLACES_MOD <= U64_MAX
    ensures ParseSpec(w).Some?
    ensures FormatSpec(ParseSpec(w).value) == w && FormatFixed(ParseSpec(w).value) == w
  {
    ParseWhole(w);
    var a := ParseSpec(w).value;
    assert a.scaled / PLACES_MOD == DigitsValue(w) && a.scaled % PLACES_MOD == 0;
    CanonicalIsFormatted(w);
    assert FormatSpec(a) == w + [];
    assert FormatFixed(a) == w + [];
    assert w + [] == w;
  }

  // ---------------------------------------------------------------------
  // The counterexample, and the unit tests' vectors
  // ---------------------------------------------------------------------

  /** The value of place i of a fraction: its digit, or zero past the end. */
  function Place(f: seq<byte>, i: nat): (d: nat)
    requires AllDigits(f)
    ensures d <= 9
    ensures i < |f| ==> f[i] == ZERO + d
  {
    if i < |f| then f[i] - ZERO else 0
  }

  /** The fraction's places weigh 1000, 100, 10 and 1; missing places count zero, later ones nothing. */
  lemma FracWeights(f: seq<byte>)
    requires AllDigits(f)
    ensures FracValue(f) == 1000 * Place(f, 0) + 100 * Place(f, 1) + 10 * Place(f, 2) + Place(f, 3)
  {
    var k := if |f| < PLACES then |f| else PLACES;
    var p := f[..k] + Zeros(PLACES - k);
    assert forall i | 0 <= i < PLACES :: p[i] == ZERO + Place(f, i);
    DigitsValueOfFour(p);
  }

  /** The value of a one-digit numeral. */
  lemma DigitsValueOfOne(c: byte)
    requires IsDigit(c)
    ensures AllDigits([c]) && DigitsValue([c]) == c - ZERO
  {
    assert [c][..0] == [];
  }

  /** `1.05` reads as 10500. */
  lemma ParseOneOhFive()
    ensures ParseSpec(Ascii("1.05")) == Some(Amount(10500))
  {
    DigitsValueOfOne(ZERO + 1);
    OnePointOhFiveText();
    ParseDecimal([ZERO + 1], [ZERO, ZERO + 5]);
    FracWeights([ZERO, ZERO + 5]);
  }

  /** 10500 formats as `1.5` as written and as `1.05` when corrected. */
  lemma FormatTenThousandFiveHundred()
    ensures FormatSpec(Amount(10500)) == Ascii("1.5")
    ensures FormatFixed(Amount(10500)) == Ascii("1.05")
  {
    FormatSpecOf10500();
    FormatFixedOf10500();
    OnePointFiveText();
    OnePointOhFiveText();
  }

  lemma OnePointFiveText()
    ensures Ascii("1.5") == [ZERO + 1] + [DOT] + [ZERO + 5]
  {
  }

  lemma OnePointOhFiveText()
    ensures Ascii("1.05") == [ZERO + 1] + [DOT] + [ZERO, ZERO + 5]
  {
  }

  lemma FormatSpecOf10500()
    ensures FormatSpec(Amount(10500)) == [ZERO + 1] + [DOT] + [ZERO + 5]
  {
    FormatParts(Amount(10500));
    assert NatToDecimal(1) == [ZERO + 1];
    FiveHundred();
    StripUnique([ZERO + 5], 2);
  }

  /** The remainder of 10500, written out. */
  lemma FiveHundred()
    ensures NatToDecimal(500) == [ZERO + 5, ZERO, ZERO] == [ZERO + 5] + Zeros(2)
  {
    assert DecimalDigits(5) == [ZERO + 5];
    assert DecimalDigits(50) == [ZERO + 5, ZERO];
    assert DecimalDigits(500) == [ZERO + 5, ZERO, ZERO];
    assert Zeros(2) == [ZERO, ZERO];
  }

  lemma FormatFixedOf10500()
    ensures FormatFixed(Amount(10500)) == [ZERO + 1] + [DOT] + [ZERO, ZERO + 5]
  {
    FormatParts(Amount(10500));
    assert NatToDecimal(1) == [ZERO + 1];
    FiveHundred();
    assert FourPlaces(500) == [ZERO, ZERO + 5] + Zeros(2);
    StripUnique([ZERO, ZERO + 5], 2);
  }

  /** The concrete input: `1.05` reads as 10500, which formats as `1.5`, which reads back as 15000. */
  lemma FormatLosesLeadingZero()
    ensures ParseSpec(Ascii("1.05")) == Some(Amount(10500))
    ensures ParseSpec(FormatSpec(Amount(10500))) == Some(Amount(15000))
  {
    ParseOneOhFive();
    FormatSpecOf10500();
    ParseOnePointFive();
  }

  /** `1.5` reads as 15000. */
  lemma ParseOnePointFive()
    ensures ParseSpec([ZERO + 1] + [DOT] + [ZERO + 5]) == Some(Amount(15000))
  {
    DigitsValueOfOne(ZERO + 1);
    ParseDecimal([ZERO + 1], [ZERO + 5]);
    FracWeights([ZERO + 5]);
  }
}
