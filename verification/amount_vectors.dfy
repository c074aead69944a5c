/**
 * The vectors of the unit tests `test_parse` and `test_fmt` in
 * src/amount.rs, one lemma per vector, each proved of ParseSpec and
 * FormatSpec from the general lemmas of AmountLemmas.
 */
module AmountVectors {
  import opened Wrappers
  import opened Decimal
  import opened Amounts
  import opened AmountLemmas

  const F: byte := 102  // b'f'

  // ---------------------------------------------------------------------
  // test_parse: accepted inputs
  // ---------------------------------------------------------------------

  lemma VectorZero()
    ensures ParseSpec(Ascii("0")) == Some(Amount(0))
  {
    DigitsValueOfOne(ZERO);
    assert Ascii("0") == [ZERO];
    ParseWhole([ZERO]);
  }

  lemma VectorZeroDot()
    ensures ParseSpec(Ascii("0.")) == Some(Amount(0))
  {
    DigitsValueOfOne(ZERO);
    assert Ascii("0.") == [ZERO] + [DOT] + [];
    ParseDecimal([ZERO], []);
    FracWeights([]);
  }

  lemma VectorZeroOnePlace()
    ensures ParseSpec(Ascii("0.0")) == Some(Amount(0))
  {
    DigitsValueOfOne(ZERO);
    assert Ascii("0.0") == [ZERO] + [DOT] + [ZERO];
    ParseDecimal([ZERO], [ZERO]);
    FracWeights([ZERO]);
  }

  lemma VectorZeroTwoPlaces()
    ensures ParseSpec(Ascii("0.00")) == Some(Amount(0))
  {
    DigitsValueOfOne(ZERO);
    assert Ascii("0.00") == [ZERO] + [DOT] + [ZERO, ZERO];
    ParseDecimal([ZERO], [ZERO, ZERO]);
    FracWeights([ZERO, ZERO]);
  }

  lemma VectorOne()
    ensures ParseSpec(Ascii("1")) == Some(Amount(10000))
  {
    DigitsValueOfOne(ZERO + 1);
    assert Ascii("1") == [ZERO + 1];
    ParseWhole([ZERO + 1]);
  }

  lemma VectorOneDot()
    ensures ParseSpec(Ascii("1.")) == Some(Amount(10000))
  {
    DigitsValueOfOne(ZERO + 1);
    assert Ascii("1.") == [ZERO + 1] + [DOT] + [];
    ParseDecimal([ZERO + 1], []);
    FracWeights([]);
  }

  lemma VectorOnePointZero()
    ensures ParseSpec(Ascii("1.0")) == Some(Amount(10000))
  {
    DigitsValueOfOne(ZERO + 1);
    assert Ascii("1.0") == [ZERO + 1] + [DOT] + [ZERO];
    ParseDecimal([ZERO + 1], [ZERO]);
    FracWeights([ZERO]);
  }

  lemma VectorOnePlace()
    ensures ParseSpec(Ascii("1.1")) == Some(Amount(11000))
  {
    DigitsValueOfOne(ZERO + 1);
    assert Ascii("1.1") == [ZERO + 1] + [DOT] + [ZERO + 1];
    ParseDecimal([ZERO + 1], [ZERO + 1]);
    FracWeights([ZERO + 1]);
  }

  lemma VectorTwoPlaces()
    ensures ParseSpec(Ascii("1.12")) == Some(Amount(11200))
  {
    DigitsValueOfOne(ZERO + 1);
    assert Ascii("1.12") == [ZERO + 1] + [DOT] + [ZERO + 1, ZERO + 2];
    ParseDecimal([ZERO + 1], [ZERO + 1, ZERO + 2]);
    FracWeights([ZERO + 1, ZERO + 2]);
  }

  lemma VectorThreePlaces()
    ensures ParseSpec(Ascii("1.123")) == Some(Amount(11230))
  {
    DigitsValueOfOne(ZERO + 1);
    assert Ascii("1.123") == [ZERO + 1] + [DOT] + [ZERO + 1, ZERO + 2, ZERO + 3];
    ParseDecimal([ZERO + 1], [ZERO + 1, ZERO + 2, ZERO + 3]);
    FracWeights([ZERO + 1, ZERO + 2, ZERO + 3]);
  }

  lemma VectorFourPlaces()
    ensures ParseSpec(Ascii("1.1234")) == Some(Amount(11234))
  {
    DigitsValueOfOne(ZERO + 1);
    assert Ascii("1.1234") == [ZERO + 1] + [DOT] + [ZERO + 1, ZERO + 2, ZERO + 3, ZERO + 4];
    ParseDecimal([ZERO + 1], [ZERO + 1, ZERO + 2, ZERO + 3, ZERO + 4]);
    FracWeights([ZERO + 1, ZERO + 2, ZERO + 3, ZERO + 4]);
  }

  lemma VectorFivePlacesTruncated()
    ensures ParseSpec(Ascii("1.12345")) == Some(Amount(11234))
  {
    DigitsValueOfOne(ZERO + 1);
    assert Ascii("1.12345") == [ZERO + 1] + [DOT] + [ZERO + 1, ZERO + 2, ZERO + 3, ZERO + 4, ZERO + 5];
    ParseDecimal([ZERO + 1], [ZERO + 1, ZERO + 2, ZERO + 3, ZERO + 4, ZERO + 5]);
    FracWeights([ZERO + 1, ZERO + 2, ZERO + 3, ZERO + 4, ZERO + 5]);
  }

  lemma VectorStrayByte()
    ensures ParseSpec(Ascii("f")) == None
  {
    assert Ascii("f") == [] + [F] + [];
    ParseStrayByte([], F, []);
  }

  lemma VectorStrayByteAfterWhole()
    ensures ParseSpec(Ascii("1f")) == None
  {
    assert Ascii("1f") == [ZERO + 1] + [F] + [];
    ParseStrayByte([ZERO + 1], F, []);
  }

  lemma VectorBadFractionFirst()
    ensures ParseSpec(Ascii("1.f")) == None
  {
    var f := [F];
    assert Ascii("1.f") == [ZERO + 1] + [DOT] + f;
    assert !IsDigit(f[0]);
    ParseBadFraction([ZERO + 1], f);
  }

  lemma VectorBadFractionSecond()
    ensures ParseSpec(Ascii("1.1f")) == None
  {
    var f := [ZERO + 1, F];
    assert Ascii("1.1f") == [ZERO + 1] + [DOT] + f;
    assert !IsDigit(f[1]);
    ParseBadFraction([ZERO + 1], f);
  }

  lemma VectorBadFractionThird()
    ensures ParseSpec(Ascii("1.12f")) == None
  {
    var f := [ZERO + 1, ZERO + 2, F];
    assert Ascii("1.12f") == [ZERO + 1] + [DOT] + f;
    assert !IsDigit(f[2]);
    ParseBadFraction([ZERO + 1], f);
  }

  lemma VectorBadFractionFourth()
    ensures ParseSpec(Ascii("1.123f")) == None
  {
    var f := [ZERO + 1, ZERO + 2, ZERO + 3, F];
    assert Ascii("1.123f") == [ZERO + 1] + [DOT] + f;
    assert !IsDigit(f[3]);
    ParseBadFraction([ZERO + 1], f);
  }

  lemma VectorBadFractionFifth()
    ensures ParseSpec(Ascii("1.1234f")) == None
  {
    var f := [ZERO + 1, ZERO + 2, ZERO + 3, ZERO + 4, F];
    assert Ascii("1.1234f") == [ZERO + 1] + [DOT] + f;
    assert !IsDigit(f[4]);
    ParseBadFraction([ZERO + 1], f);
  }

  lemma VectorBadFractionTruncated()
    ensures ParseSpec(Ascii("1.12345f")) == None
  {
    var f := [ZERO + 1, ZERO + 2, ZERO + 3, ZERO + 4, ZERO + 5, F];
    assert Ascii("1.12345f") == [ZERO + 1] + [DOT] + f;
    assert !IsDigit(f[5]);
    ParseBadFraction([ZERO + 1], f);
  }

  // ---------------------------------------------------------------------
  // test_parse: the edge of the u64 range
  // ---------------------------------------------------------------------

  lemma Pow10Sixteen()
    ensures Pow10(16) == 10_000_000_000_000_000
  {
    PlacesModIsPow10();
    Pow10Add(4, 4);
    Pow10Add(8, 8);
  }

  /** u64::MAX written as a whole number overflows once scaled by 10^4. */
  lemma VectorWholeOverflow()
    ensures ParseSpec(Ascii("18446744073709551615")) == None
  {
    Pow10Sixteen();
    var d := Ascii("18446744073709551615");
    DigitsLowerBound(d);
    Pow10Monotone(16, 19);
    ParseWhole(d);
  }

  /** So does its seventeen-digit prefix. */
  lemma VectorWholeOverflowShort()
    ensures ParseSpec(Ascii("18446744073709551")) == None
  {
    Pow10Sixteen();
    var d := Ascii("18446744073709551");
    DigitsLowerBound(d);
    ParseWhole(d);
  }

  /** The whole part 1844674407370955, read four digits at a time. */
  lemma LargestWholeValue()
    ensures AllDigits(Ascii("1844674407370955"))
    ensures DigitsValue(Ascii("1844674407370955")) == 1844674407370955
  {
    var a, b, c, d := Ascii("1844"), Ascii("6744"), Ascii("0737"), Ascii("0955");
    LargestWholeText();
    LargestWholeChunks();
    AppendChunk(a, b, 1844, 6744);
    AppendChunk(a + b, c, 18446744, 737);
    AppendChunk(a + b + c, d, 184467440737, 955);
  }

  lemma LargestWholeText()
    ensures Ascii("1844674407370955") == Ascii("1844") + Ascii("6744") + Ascii("0737") + Ascii("0955")
  {
  }

  lemma LargestWholeChunks()
    ensures AllDigits(Ascii("1844")) && DigitsValue(Ascii("1844")) == 1844
    ensures AllDigits(Ascii("6744")) && DigitsValue(Ascii("6744")) == 6744
    ensures AllDigits(Ascii("0737")) && DigitsValue(Ascii("0737")) == 737
    ensures AllDigits(Ascii("0955")) && DigitsValue(Ascii("0955")) == 955
  {
    ChunkValue(Ascii("1844"), 1844);
    ChunkValue(Ascii("6744"), 6744);
    ChunkValue(Ascii("0737"), 737);
    ChunkValue(Ascii("0955"), 955);
  }

  lemma ChunkValue(s: seq<byte>, v: nat)
    requires |s| == 4 && AllDigits(s)
    requires v == 1000 * (s[0] - ZERO) + 100 * (s[1] - ZERO) + 10 * (s[2] - ZERO) + (s[3] - ZERO)
    ensures DigitsValue(s) == v
  {
    DigitsValueOfFour(s);
  }

  lemma AppendChunk(a: seq<byte>, b: seq<byte>, x: nat, y: nat)
    requires AllDigits(a) && AllDigits(b) && |b| == 4
    requires DigitsValue(a) == x && DigitsValue(b) == y
    ensures AllDigits(a + b) && DigitsValue(a + b) == x * 10000 + y
  {
    DigitsAppend(a, b);
    PlacesModIsPow10();
  }

  /** u64::MAX itself, written with four places, is the largest amount. */
  lemma VectorLargest()
    ensures ParseSpec(Ascii("1844674407370955.1615")) == Some(Amount(U64_MAX))
  {
    var w, f := Ascii("1844674407370955"), Ascii("1615");
    LargestWholeValue();
    assert Ascii("1844674407370955.1615") == w + [DOT] + f;
    ParseDecimal(w, f);
    FracWeights(f);
  }

  lemma LargestText()
    ensures Ascii("1844674407370955.1615") == Ascii("1844674407370955") + [DOT] + Ascii("1615")
  {
  }

  /** One ten-thousandth more is refused. */
  lemma VectorLargestPlusOne()
    ensures ParseSpec(Ascii("1844674407370955.1616")) == None
  {
    var w, f := Ascii("1844674407370955"), Ascii("1616");
    LargestWholeValue();
    assert Ascii("1844674407370955.1616") == w + [DOT] + f;
    ParseDecimal(w, f);
    FracWeights(f);
  }

  // ---------------------------------------------------------------------
  // The amounts the tests of src/accounts.rs write, read by their helper
  // `amount(v)`; AccountScenarios writes them as these values
  // ---------------------------------------------------------------------

  /** A single digit is that many whole units. */
  lemma VectorDigit(c: byte)
    requires IsDigit(c)
    ensures ParseSpec([c]) == Some(Amount((c - ZERO) * PLACES_MOD))
  {
    DigitsValueOfOne(c);
    ParseWhole([c]);
  }

  /** A whole part followed by `.5` is half a unit more. */
  lemma VectorHalf(w: seq<byte>)
    requires AllDigits(w) && DigitsValue(w) <= 100
    ensures ParseSpec(w + [DOT] + [ZERO + 5]) == Some(Amount(DigitsValue(w) * PLACES_MOD + 5000))
  {
    ParseDecimal(w, [ZERO + 5]);
    FracWeights([ZERO + 5]);
  }

  /** The two-digit whole part `1d` is ten plus d. */
  lemma TenAnd(c: byte)
    requires IsDigit(c)
    ensures AllDigits([ZERO + 1, c]) && DigitsValue([ZERO + 1, c]) == 10 + (c - ZERO)
  {
    DigitsValueOfOne(ZERO + 1);
    DigitsValueOfOne(c);
    DigitsAppend([ZERO + 1], [c]);
    assert [ZERO + 1] + [c] == [ZERO + 1, c];
    assert Pow10(1) == 10;
  }

  /** "0" and "1" are VectorZero and VectorOne above. */
  lemma AccountTestWholes()
    ensures ParseSpec(Ascii("2")) == Some(Amount(20000))
    ensures ParseSpec(Ascii("3")) == Some(Amount(30000))
    ensures ParseSpec(Ascii("5")) == Some(Amount(50000))
    ensures ParseSpec(Ascii("6")) == Some(Amount(60000))
  {
    assert Ascii("2") == [ZERO + 2];
    assert Ascii("3") == [ZERO + 3];
    assert Ascii("5") == [ZERO + 5];
    assert Ascii("6") == [ZERO + 6];
    VectorDigit(ZERO + 2);
    VectorDigit(ZERO + 3);
    VectorDigit(ZERO + 5);
    VectorDigit(ZERO + 6);
  }

  lemma VectorEightHalf()
    ensures ParseSpec(Ascii("8.5")) == Some(Amount(85000))
  {
    DigitsValueOfOne(ZERO + 8);
    assert Ascii("8.5") == [ZERO + 8] + [DOT] + [ZERO + 5];
    VectorHalf([ZERO + 8]);
  }

  lemma VectorTenHalf()
    ensures ParseSpec(Ascii("10.5")) == Some(Amount(105000))
  {
    TenAnd(ZERO);
    assert Ascii("10.5") == [ZERO + 1, ZERO] + [DOT] + [ZERO + 5];
    VectorHalf([ZERO + 1, ZERO]);
  }

  lemma VectorElevenHalf()
    ensures ParseSpec(Ascii("11.5")) == Some(Amount(115000))
  {
    TenAnd(ZERO + 1);
    assert Ascii("11.5") == [ZERO + 1, ZERO + 1] + [DOT] + [ZERO + 5];
    VectorHalf([ZERO + 1, ZERO + 1]);
  }

  lemma VectorThirteenHalf()
    ensures ParseSpec(Ascii("13.5")) == Some(Amount(135000))
  {
    TenAnd(ZERO + 3);
    assert Ascii("13.5") == [ZERO + 1, ZERO + 3] + [DOT] + [ZERO + 5];
    VectorHalf([ZERO + 1, ZERO + 3]);
  }

  // ---------------------------------------------------------------------
  // test_fmt: parse then format gives the text back
  // ---------------------------------------------------------------------

  /** The text reads as an amount, and that amount formats as the same text. */
  predicate FormatsBack(s: seq<byte>) {
    ParseSpec(s).Some? && FormatSpec(ParseSpec(s).value) == s
  }

  lemma FormatVectorZero()
    ensures FormatsBack(Ascii("0"))
  {
    DigitsValueOfOne(ZERO);
    assert Ascii("0") == [ZERO];
    ParseThenFormatWhole([ZERO]);
  }

  lemma FormatVectorOne()
    ensures FormatsBack(Ascii("1"))
  {
    DigitsValueOfOne(ZERO + 1);
    assert Ascii("1") == [ZERO + 1];
    ParseThenFormatWhole([ZERO + 1]);
  }

  lemma FormatVectorOnePlace()
    ensures FormatsBack(Ascii("1.1"))
  {
    var f := [ZERO + 1];
    DigitsValueOfOne(ZERO + 1);
    assert Ascii("1.1") == [ZERO + 1] + [DOT] + f;
    FracWeights(f);
    ParseThenFormat([ZERO + 1], f);
  }

  lemma FormatVectorTwoPlaces()
    ensures FormatsBack(Ascii("1.12"))
  {
    var f := [ZERO + 1, ZERO + 2];
    DigitsValueOfOne(ZERO + 1);
    assert Ascii("1.12") == [ZERO + 1] + [DOT] + f;
    FracWeights(f);
    ParseThenFormat([ZERO + 1], f);
  }

  lemma FormatVectorThreePlaces()
    ensures FormatsBack(Ascii("1.123"))
  {
    var f := [ZERO + 1, ZERO + 2, ZERO + 3];
    DigitsValueOfOne(ZERO + 1);
    assert Ascii("1.123") == [ZERO + 1] + [DOT] + f;
    FracWeights(f);
    ParseThenFormat([ZERO + 1], f);
  }

  lemma FormatVectorFourPlaces()
    ensures FormatsBack(Ascii("1.1234"))
  {
    var f := [ZERO + 1, ZERO + 2, ZERO + 3, ZERO + 4];
    DigitsValueOfOne(ZERO + 1);
    assert Ascii("1.1234") == [ZERO + 1] + [DOT] + f;
    FracWeights(f);
    ParseThenFormat([ZERO + 1], f);
  }

  lemma FormatVectorLargest()
    ensures FormatsBack(Ascii("1844674407370955.1615"))
  {
    var w, f := Ascii("1844674407370955"), Ascii("1615");
    LargestWholeValue();
    LargestText();
    FracWeights(f);
    ParseThenFormat(w, f);
  }
}
