/**
 * Properties of `Row::parse` (module Parser): when a row is short of
 * columns, that extra columns and surrounding whitespace do not matter,
 * the order in which the columns are checked, the amount rule, and that a
 * row written out in the expected layout reads back as itself.
 */
module ParserLemmas {
  import opened Wrappers
  import opened Errors
  import opened Decimal
  import opened Amounts
  import opened AmountLemmas
  import opened AccountSpec
  import opened Parser

  // ---------------------------------------------------------------------
  // Trimming
  // ---------------------------------------------------------------------

  /** A piece that neither starts nor ends with whitespace is left as it is. */
  lemma TrimUnpadded(s: seq<byte>)
    requires s != [] ==> !IsAsciiWhitespace(s[0]) && !IsAsciiWhitespace(s[|s| - 1])
    ensures TrimAscii(s) == s
  {
  }

  /** A run of whitespace followed by r ends in r, and what comes before r is whitespace. */
  lemma {:induction false} SpaceThenSuffix(s: seq<byte>, r: seq<byte>)
    requires SpaceThen(s, r)
    ensures |r| <= |s| && r == s[|s| - |r|..] && AllSpace(s[..|s| - |r|])
    decreases |s|
  {
    if s == r {
      assert s[0..] == s;
    } else {
      SpaceThenSuffix(s[1..], r);
      assert s[1..][|s| - 1 - |r|..] == s[|s| - |r|..];
      assert s[..|s| - |r|] == [s[0]] + s[1..][..|s| - 1 - |r|];
    }
  }

  /** Conversely, whitespace followed by a suffix r of s is a run of whitespace followed by r. */
  lemma {:induction false} SuffixSpaceThen(s: seq<byte>, r: seq<byte>)
    requires |r| <= |s| && r == s[|s| - |r|..] && AllSpace(s[..|s| - |r|])
    ensures SpaceThen(s, r)
    decreases |s|
  {
    if |r| < |s| {
      assert IsAsciiWhitespace(s[..|s| - |r|][0]);
      assert s[1..][|s| - 1 - |r|..] == s[|s| - |r|..];
      assert s[1..][..|s| - 1 - |r|] == s[..|s| - |r|][1..];
      SuffixSpaceThen(s[1..], r);
    } else {
      assert s[0..] == s;
    }
  }

  /**
   * Trimming keeps a slice of s: everything before it and everything after
   * it is whitespace.
   */
  lemma TrimSlice(s: seq<byte>)
    ensures var r := TrimAscii(s);
      exists k | 0 <= k <= |s| - |r| :: r == s[k..k + |r|] && AllSpace(s[..k]) && AllSpace(s[k + |r|..])
  {
    var t := TrimStart(s);
    var r := TrimEnd(t);
    var k := |s| - |t|;
    SpaceThenSuffix(s, t);
    assert s[k..k + |r|] == t[..|r|];
    assert s[k + |r|..] == t[|r|..];
  }

  /** Whitespace around a piece is cut off, whatever the piece. */
  lemma TrimPadded(left: seq<byte>, s: seq<byte>, right: seq<byte>)
    requires AllSpace(left) && AllSpace(right)
    ensures TrimAscii(left + s + right) == TrimAscii(s)
  {
    assert left + s + right == left + (s + right);
    TrimStartPadded(left, s + right);
    if TrimStart(s) != [] {
      TrimStartAppend(s, right);
      TrimEndPadded(TrimStart(s), right);
    } else {
      TrimStartBlank(s, right);
    }
  }

  /** Leading whitespace is dropped by TrimStart. */
  lemma {:induction false} TrimStartPadded(left: seq<byte>, s: seq<byte>)
    requires AllSpace(left)
    ensures TrimStart(left + s) == TrimStart(s)
    decreases |left|
  {
    if left == [] {
      assert left + s == s;
    } else {
      assert (left + s)[1..] == left[1..] + s;
      TrimStartPadded(left[1..], s);
    }
  }

  /** What follows a piece with some non-whitespace byte survives TrimStart unchanged. */
  lemma {:induction false} TrimStartAppend(s: seq<byte>, right: seq<byte>)
    requires TrimStart(s) != []
    ensures TrimStart(s + right) == TrimStart(s) + right
    decreases |s|
  {
    if IsAsciiWhitespace(s[0]) {
      assert (s + right)[1..] == s[1..] + right;
      TrimStartAppend(s[1..], right);
    }
  }

  /** A blank piece followed by whitespace trims to nothing. */
  lemma {:induction false} TrimStartBlank(s: seq<byte>, right: seq<byte>)
    requires TrimStart(s) == [] && AllSpace(right)
    ensures TrimStart(s + right) == []
    decreases |s|
  {
    if s == [] {
      assert s + right == right + [];
      TrimStartPadded(right, []);
    } else {
      assert (s + right)[1..] == s[1..] + right;
      TrimStartBlank(s[1..], right);
    }
  }

  /** Trailing whitespace is dropped by TrimEnd. */
  lemma {:induction false} TrimEndPadded(s: seq<byte>, right: seq<byte>)
    requires AllSpace(right)
    ensures TrimEnd(s + right) == TrimEnd(s)
    decreases |right|
  {
    if right == [] {
      assert s + right == s;
    } else {
      var shorter := right[..|right| - 1];
      assert (s + right)[..|s + right| - 1] == s + shorter;
      TrimEndPadded(s, shorter);
    }
  }

  // ---------------------------------------------------------------------
  // Columns of a joined row
  // ---------------------------------------------------------------------

  /** The columns of pieces joined by commas are the trimmed pieces. */
  lemma ColumnsOfJoin(parts: seq<seq<byte>>)
    requires |parts| >= 1
    requires forall k | 0 <= k < |parts| :: NoComma(parts[k])
    ensures |Columns(Join(parts))| == |parts|
    ensures forall k | 0 <= k < |parts| :: Columns(Join(parts))[k] == TrimAscii(parts[k])
  {
    SplitJoin(parts);
  }

  /** Each piece with whitespace added on its left and on its right. */
  function Padded(parts: seq<seq<byte>>, left: seq<seq<byte>>, right: seq<seq<byte>>): (r: seq<seq<byte>>)
    requires |left| == |parts| && |right| == |parts|
    ensures |r| == |parts|
    ensures forall k | 0 <= k < |r| :: r[k] == left[k] + parts[k] + right[k]
  {
    seq(|parts|, k requires 0 <= k < |parts| => left[k] + parts[k] + right[k])
  }

  /**
   * Whitespace around any column is ignored: padding every piece of a row
   * with whitespace on both sides parses to the same result.
   */
  lemma PaddingIgnored(parts: seq<seq<byte>>, left: seq<seq<byte>>, right: seq<seq<byte>>)
    requires |parts| >= 1 && |left| == |parts| && |right| == |parts|
    requires forall k | 0 <= k < |parts| :: NoComma(parts[k]) && AllSpace(left[k]) && AllSpace(right[k])
    ensures ParseRow(Join(Padded(parts, left, right))) == ParseRow(Join(parts))
  {
    PaddedColumns(parts, left, right);
  }

  /** Padded pieces give the same columns as the pieces themselves. */
  lemma PaddedColumns(parts: seq<seq<byte>>, left: seq<seq<byte>>, right: seq<seq<byte>>)
    requires |parts| >= 1 && |left| == |parts| && |right| == |parts|
    requires forall k | 0 <= k < |parts| :: NoComma(parts[k]) && AllSpace(left[k]) && AllSpace(right[k])
    ensures Columns(Join(Padded(parts, left, right))) == Columns(Join(parts))
  {
    var padded := Padded(parts, left, right);
    forall k | 0 <= k < |parts|
      ensures NoComma(padded[k]) && TrimAscii(padded[k]) == TrimAscii(parts[k])
    {
      TrimPadded(left[k], parts[k], right[k]);
    }
    ColumnsOfJoin(parts);
    ColumnsOfJoin(padded);
  }

  // ---------------------------------------------------------------------
  // Column count
  // ---------------------------------------------------------------------

  /** A row fails with CsvMissingColumn exactly when it has fewer than three commas. */
  lemma MissingColumnIff(buf: seq<byte>)
    ensures ParseRow(buf) == Err(CsvMissingColumn) <==> CommaCount(buf) < 3
  {
  }

  /** Whatever follows a fourth comma is never looked at. */
  lemma ExtraColumnsIgnored(buf: seq<byte>, extra: seq<byte>)
    requires CommaCount(buf) >= 3
    ensures ParseRow(buf + [COMMA] + extra) == ParseRow(buf)
  {
    var longer := Columns(buf + [COMMA] + extra);
    var cols := Columns(buf);
    SplitAppend(buf, extra);
    assert longer[..4] == cols[..4];
    OnlyFourColumnsRead(longer);
    OnlyFourColumnsRead(cols);
  }

  /** The checks read the first four columns only. */
  lemma OnlyFourColumnsRead(cols: seq<seq<byte>>)
    requires |cols| >= 4
    ensures ParseColumns(cols) == ParseColumns(cols[..4])
  {
  }

  // ---------------------------------------------------------------------
  // The order of the checks
  // ---------------------------------------------------------------------

  /**
   * With four columns, a type that is not one of the five words fails with
   * CsvUnknownTransactionType whatever the other columns hold, and that is
   * the only way to get that error.
   */
  lemma UnknownTypeIff(buf: seq<byte>)
    ensures ParseRow(buf) == Err(CsvUnknownTransactionType)
        <==> CommaCount(buf) >= 3 && forall kind: TransactionKind :: KindName(kind) != Columns(buf)[0]
  {
    if CommaCount(buf) >= 3 && KindOfToken(Columns(buf)[0]).Some? {
      var kind := KindOfToken(Columns(buf)[0]).value;
      assert KindName(kind) == Columns(buf)[0];
    }
  }

  /**
   * With four columns and a known type, an unreadable client id fails with
   * CsvInvalidClientId before the transaction id is looked at, and an
   * unreadable transaction id fails with CsvInvalidTxId before the amount
   * is looked at.
   */
  lemma IdsCheckedInOrder(buf: seq<byte>)
    requires CommaCount(buf) >= 3 && KindOfToken(Columns(buf)[0]).Some?
    ensures Atoi(Columns(buf)[1], CLIENT_ID_MAX).None? ==> ParseRow(buf) == Err(CsvInvalidClientId)
    ensures Atoi(Columns(buf)[1], CLIENT_ID_MAX).Some? && Atoi(Columns(buf)[2], TX_ID_MAX).None?
        ==> ParseRow(buf) == Err(CsvInvalidTxId)
    ensures ParseRow(buf) == Err(CsvInvalidClientId) <==> Atoi(Columns(buf)[1], CLIENT_ID_MAX).None?
  {
  }

  /**
   * The amount rule, once the type and both ids have been read: a deposit
   * or withdrawal takes the amount column as `Amount::parse` reads it and
   * fails with CsvInvalidAmount when it cannot, an empty column included;
   * the other kinds take zero, and fail with CsvUnexpectedAmount exactly
   * when the column is not empty.
   */
  lemma AmountRule(buf: seq<byte>, kind: TransactionKind, clientId: ClientId, txId: TransactionId)
    requires CommaCount(buf) >= 3
    requires KindOfToken(Columns(buf)[0]) == Some(kind)
    requires Atoi(Columns(buf)[1], CLIENT_ID_MAX) == Some(clientId)
    requires Atoi(Columns(buf)[2], TX_ID_MAX) == Some(txId)
    ensures HasAmount(kind) ==> match ParseSpec(Columns(buf)[3])
      case Some(amount) => ParseRow(buf) == Ok(Row(clientId, Transaction(kind, txId, amount)))
      case None => ParseRow(buf) == Err(CsvInvalidAmount)
    ensures HasAmount(kind) && Columns(buf)[3] == [] ==> ParseRow(buf) == Err(CsvInvalidAmount)
    ensures !HasAmount(kind) ==>
      (ParseRow(buf).Ok? <==> Columns(buf)[3] == []) &&
      (ParseRow(buf).Ok? ==> ParseRow(buf) == Ok(Row(clientId, Transaction(kind, txId, Zero())))) &&
      (ParseRow(buf).Err? ==> ParseRow(buf) == Err(CsvUnexpectedAmount))
  {
  }

  // ---------------------------------------------------------------------
  // Writing a row out and reading it back
  // ---------------------------------------------------------------------

  /** A row the parser can produce: kinds without an amount carry zero. */
  predicate Producible(row: Row) {
    !HasAmount(row.transaction.kind) ==> row.transaction.amount == Zero()
  }

  /**
   * A row written in the layout `Row::parse` expects: the type word, the
   * two ids in decimal, and the amount (left empty for kinds without one),
   * separated by commas.
   */
  function RenderRow(row: Row): seq<byte> {
    Join(RenderedColumns(row))
  }

  /** Every row the parser produces is producible. */
  lemma ParsedIsProducible(buf: seq<byte>)
    requires ParseRow(buf).Ok?
    ensures Producible(ParseRow(buf).value)
  {
  }

  /** The columns of a row as RenderRow writes it. */
  function RenderedColumns(row: Row): seq<seq<byte>> {
    var t := row.transaction;
    [KindName(t.kind), NatToDecimal(row.clientId), NatToDecimal(t.id),
     if HasAmount(t.kind) then FormatFixed(t.amount) else []]
  }

  /** A producible row, written out, reads back as itself. */
  lemma RenderRoundTrip(row: Row)
    requires Producible(row)
    ensures ParseRow(RenderRow(row)) == Ok(row)
  {
    RenderSplitsBack(row);
    ParseRenderedColumns(row);
  }

  /** A cell with no comma inside and no whitespace at either end: trimming leaves it alone. */
  predicate Bare(s: seq<byte>) {
    NoComma(s) && (s != [] ==> !IsAsciiWhitespace(s[0]) && !IsAsciiWhitespace(s[|s| - 1]))
  }

  /** Bare cells joined by commas are the columns of the line. */
  lemma ColumnsOfBare(cells: seq<seq<byte>>)
    requires |cells| >= 1 && forall k | 0 <= k < |cells| :: Bare(cells[k])
    ensures Columns(Join(cells)) == cells
  {
    assert forall k | 0 <= k < |cells| :: NoComma(cells[k]);
    ColumnsOfJoin(cells);
    var cols := Columns(Join(cells));
    forall k | 0 <= k < |cells| ensures cols[k] == cells[k] {
      TrimUnpadded(cells[k]);
    }
  }

  /** Cutting a rendered row and trimming the pieces gives its four columns back. */
  lemma RenderSplitsBack(row: Row)
    ensures Columns(RenderRow(row)) == RenderedColumns(row)
  {
    var t := row.transaction;
    var parts := RenderedColumns(row);
    KindNameShape(t.kind);
    NumeralShape(parts[1]);
    NumeralShape(parts[2]);
    if HasAmount(t.kind) {
      FormatFixedShape(t.amount);
    }
    assert Bare(parts[0]) && Bare(parts[1]) && Bare(parts[2]) && Bare(parts[3]);
    ColumnsOfBare(parts);
  }

  /** The four columns of a producible row are checked and read back as the row. */
  lemma ParseRenderedColumns(row: Row)
    requires Producible(row)
    ensures ParseColumns(RenderedColumns(row)) == Ok(row)
  {
    var t := row.transaction;
    var cols := RenderedColumns(row);
    KindOfName(t.kind);
    AtoiOfNumeral(cols[1], CLIENT_ID_MAX);
    AtoiOfNumeral(cols[2], TX_ID_MAX);
    if HasAmount(t.kind) {
      FormatFixedRoundTrip(t.amount);
    }
  }

  /** Each kind's word is read as that kind. */
  lemma KindOfName(kind: TransactionKind)
    ensures KindOfToken(KindName(kind)) == Some(kind)
  {
  }

  /** Reading a whole numeral gives its value, when the value fits. */
  lemma AtoiOfNumeral(s: seq<byte>, max: nat)
    requires Canonical(s) && DigitsValue(s) <= max
    ensures Atoi(s, max) == Some(DigitsValue(s))
  {
    DigitRunOfNumeral(s, []);
    assert s + [] == s;
  }

  /** A type word has no comma and no whitespace at either end. */
  lemma KindNameShape(kind: TransactionKind)
    ensures NoComma(KindName(kind)) && KindName(kind) != []
    ensures !IsAsciiWhitespace(KindName(kind)[0]) && !IsAsciiWhitespace(KindName(kind)[|KindName(kind)| - 1])
  {
  }

  /** A numeral is made of digits only, so it has no comma and no whitespace. */
  lemma NumeralShape(s: seq<byte>)
    requires Canonical(s)
    ensures NoComma(s) && !IsAsciiWhitespace(s[0]) && !IsAsciiWhitespace(s[|s| - 1])
  {
  }

  /** An amount as FormatFixed writes it: digits and at most a dot, no comma or whitespace. */
  lemma FormatFixedShape(a: Amount)
    ensures FormatFixed(a) != [] && NoComma(FormatFixed(a))
    ensures !IsAsciiWhitespace(FormatFixed(a)[0]) && !IsAsciiWhitespace(FormatFixed(a)[|FormatFixed(a)| - 1])
  {
    var fract := a.scaled % PLACES_MOD;
    var whole := NatToDecimal(a.scaled / PLACES_MOD);
    if fract != 0 {
      var tail := StripTrailingZeros(FourPlaces(fract));
      assert FourPlaces(fract) == tail + Zeros(PLACES - |tail|);
      assert forall i | 0 <= i < |tail| :: tail[i] == FourPlaces(fract)[i];
      var s := FormatFixed(a);
      assert s == whole + ([DOT] + tail);
      assert forall i | 0 <= i < |s| :: s[i] == DOT || IsDigit(s[i]);
    }
  }
}
