/**
 * The vectors of the unit test `test_parse` in src/parser.rs, one lemma per
 * row, each proved from the general lemmas of ParserLemmas: the row is a
 * line of bare cells joined by commas (and optional spaces), so it parses as
 * the checks on those cells say.
 */
module ParserVectors {
  import opened Wrappers
  import opened Errors
  import opened Decimal
  import opened Amounts
  import opened AmountLemmas
  import opened AccountSpec
  import opened Parser
  import opened ParserLemmas

  const SPACE: byte := 32
  const ONE: seq<byte> := [ZERO + 1]                        // b"1"
  const ONE_POINT_ZERO: seq<byte> := [ZERO + 1, DOT, ZERO]  // b"1.0"
  const FOO: seq<byte> := [102, 111, 111]                   // b"foo"

  /** Four cells, each comma followed by sep. */
  function Line(sep: seq<byte>, a: seq<byte>, b: seq<byte>, c: seq<byte>, d: seq<byte>): seq<byte> {
    Join([a, sep + b, sep + c, sep + d])
  }

  lemma Join4(a: seq<byte>, b: seq<byte>, c: seq<byte>, d: seq<byte>)
    ensures Join([a, b, c, d]) == a + [COMMA] + b + [COMMA] + c + [COMMA] + d
  {
    assert [a, b, c, d][1..] == [b, c, d];
    assert [b, c, d][1..] == [c, d];
    assert [c, d][1..] == [d];
    assert Join([d]) == d;
    assert Join([c, d]) == c + [COMMA] + d;
    assert Join([b, c, d]) == b + [COMMA] + (c + [COMMA] + d);
  }

  lemma Join3(a: seq<byte>, b: seq<byte>, c: seq<byte>)
    ensures Join([a, b, c]) == a + [COMMA] + b + [COMMA] + c
  {
    assert [a, b, c][1..] == [b, c];
    assert [b, c][1..] == [c];
    assert Join([c]) == c;
    assert Join([b, c]) == b + [COMMA] + c;
  }

  /** The bytes of a line. */
  lemma LineBytes(sep: seq<byte>, a: seq<byte>, b: seq<byte>, c: seq<byte>, d: seq<byte>)
    ensures Line(sep, a, b, c, d) == a + [COMMA] + sep + b + [COMMA] + sep + c + [COMMA] + sep + d
  {
    Join4(a, sep + b, sep + c, sep + d);
  }

  /** A cell after a run of spaces trims to the cell. */
  lemma TrimAfterSpaces(sep: seq<byte>, s: seq<byte>)
    requires AllSpace(sep) && Bare(s)
    ensures NoComma(sep + s) && TrimAscii(sep + s) == s
  {
    TrimPadded(sep, s, []);
    assert sep + s + [] == sep + s;
    TrimUnpadded(s);
    SpacedNoComma(sep, s);
  }

  /** Whitespace holds no comma, so a run of it before a comma-free cell keeps it comma-free. */
  lemma SpacedNoComma(sep: seq<byte>, s: seq<byte>)
    requires AllSpace(sep) && NoComma(s)
    ensures NoComma(sep + s)
  {
    forall i | 0 <= i < |sep + s| ensures (sep + s)[i] != COMMA {
      if i < |sep| { assert IsAsciiWhitespace(sep[i]); }
    }
  }

  /** A line of four bare cells has those cells as its columns. */
  lemma ColumnsOfLine(sep: seq<byte>, a: seq<byte>, b: seq<byte>, c: seq<byte>, d: seq<byte>)
    requires AllSpace(sep) && Bare(a) && Bare(b) && Bare(c) && Bare(d)
    ensures Columns(Line(sep, a, b, c, d)) == [a, b, c, d]
  {
    var pieces := [a, sep + b, sep + c, sep + d];
    TrimUnpadded(a);
    TrimAfterSpaces(sep, b);
    TrimAfterSpaces(sep, c);
    TrimAfterSpaces(sep, d);
    ColumnsOfJoin(pieces);
  }

  /** A line of four bare cells parses as the checks on those cells say. */
  lemma ParseLine(sep: seq<byte>, a: seq<byte>, b: seq<byte>, c: seq<byte>, d: seq<byte>)
    requires AllSpace(sep) && Bare(a) && Bare(b) && Bare(c) && Bare(d)
    ensures ParseRow(Line(sep, a, b, c, d)) == ParseColumns([a, b, c, d])
  {
    ColumnsOfLine(sep, a, b, c, d);
  }

  /** Four columns that pass every check make a row. */
  lemma ColumnsRead(cols: seq<seq<byte>>, kind: TransactionKind, clientId: ClientId, txId: TransactionId, amount: Amount)
    requires |cols| == 4 && KindOfToken(cols[0]) == Some(kind)
    requires Atoi(cols[1], CLIENT_ID_MAX) == Some(clientId as nat)
    requires Atoi(cols[2], TX_ID_MAX) == Some(txId as nat)
    requires AmountOf(kind, cols[3]) == Ok(amount)
    ensures ParseColumns(cols) == Ok(Row(clientId, Transaction(kind, txId, amount)))
  {
  }

  /** The checks on the cells of a line stop at the first that fails. */
  lemma LineRefused(sep: seq<byte>, a: seq<byte>, b: seq<byte>, c: seq<byte>, d: seq<byte>, kind: TransactionKind)
    requires AllSpace(sep) && Bare(a) && Bare(b) && Bare(c) && Bare(d)
    ensures KindOfToken(a).None? ==> ParseRow(Line(sep, a, b, c, d)) == Err(CsvUnknownTransactionType)
    ensures KindOfToken(a) == Some(kind) && Atoi(b, CLIENT_ID_MAX).None?
        ==> ParseRow(Line(sep, a, b, c, d)) == Err(CsvInvalidClientId)
    ensures KindOfToken(a) == Some(kind) && Atoi(b, CLIENT_ID_MAX).Some? && Atoi(c, TX_ID_MAX).None?
        ==> ParseRow(Line(sep, a, b, c, d)) == Err(CsvInvalidTxId)
    ensures KindOfToken(a) == Some(kind) && Atoi(b, CLIENT_ID_MAX).Some? && Atoi(c, TX_ID_MAX).Some?
            && AmountOf(kind, d).Err?
        ==> ParseRow(Line(sep, a, b, c, d)) == Err(AmountOf(kind, d).error)
  {
    ParseLine(sep, a, b, c, d);
  }

  lemma OneIsBare()
    ensures Bare(ONE) && Atoi(ONE, CLIENT_ID_MAX) == Some(1) && Atoi(ONE, TX_ID_MAX) == Some(1)
  {
    DigitsValueOfOne(ZERO + 1);
    AtoiOfNumeral(ONE, CLIENT_ID_MAX);
    AtoiOfNumeral(ONE, TX_ID_MAX);
  }

  lemma OnePointZeroIsBare()
    ensures Bare(ONE_POINT_ZERO) && ParseSpec(ONE_POINT_ZERO) == Some(Amount(10000))
  {
    DigitsValueOfOne(ZERO + 1);
    assert ONE_POINT_ZERO == [ZERO + 1] + [DOT] + [ZERO];
    ParseDecimal([ZERO + 1], [ZERO]);
    FracWeights([ZERO]);
  }

  /** `foo` is no type word and no number. */
  lemma FooIsBare()
    ensures Bare(FOO) && KindOfToken(FOO).None?
    ensures Atoi(FOO, CLIENT_ID_MAX).None? && Atoi(FOO, TX_ID_MAX).None?
  {
    assert DigitRun(FOO) == 0;
  }

  lemma WordIsBare(kind: TransactionKind)
    ensures Bare(KindName(kind)) && KindOfToken(KindName(kind)) == Some(kind)
  {
    KindNameShape(kind);
    KindOfName(kind);
  }

  /** `<word>, 1, 1, <amount>` with every check passing. */
  lemma SpacedRowOk(line: seq<byte>, kind: TransactionKind, text: seq<byte>, amount: Amount)
    requires line == Line([SPACE], KindName(kind), ONE, ONE, text)
    requires Bare(text) && AmountOf(kind, text) == Ok(amount)
    ensures ParseRow(line) == Ok(Row(1, Transaction(kind, 1, amount)))
  {
    WordIsBare(kind);
    OneIsBare();
    ParseLine([SPACE], KindName(kind), ONE, ONE, text);
    ColumnsRead([KindName(kind), ONE, ONE, text], kind, 1, 1, amount);
  }

  // ---------------------------------------------------------------------
  // Accepted rows
  // ---------------------------------------------------------------------

  lemma RowDepositText()
    ensures Ascii("deposit, 1, 1, 1.0") == Line([SPACE], DEPOSIT, ONE, ONE, ONE_POINT_ZERO)
  {
    LineBytes([SPACE], DEPOSIT, ONE, ONE, ONE_POINT_ZERO);
  }

  /** `deposit, 1, 1, 1.0` is a deposit of 1 by client 1 with id 1. */
  lemma RowDeposit()
    ensures ParseRow(Ascii("deposit, 1, 1, 1.0")) == Ok(Row(1, Transaction(Deposit, 1, Amount(10000))))
  {
    var line := Line([SPACE], DEPOSIT, ONE, ONE, ONE_POINT_ZERO);
    RowDepositText();
    OnePointZeroIsBare();
    SpacedRowOk(line, Deposit, ONE_POINT_ZERO, Amount(10000));
  }

  /** Cells with spaces around them parse as the bare cells do. */
  lemma PaddedLine(cells: seq<seq<byte>>, left: seq<seq<byte>>, right: seq<seq<byte>>)
    requires |cells| == 4 && |left| == 4 && |right| == 4
    requires forall k | 0 <= k < 4 :: Bare(cells[k]) && AllSpace(left[k]) && AllSpace(right[k])
    ensures ParseRow(Join(Padded(cells, left, right))) == ParseColumns(cells)
  {
    PaddedColumns(cells, left, right);
    ColumnsOfBare(cells);
  }

  const PADDED_CELLS: seq<seq<byte>> := [DEPOSIT, ONE, ONE, ONE_POINT_ZERO]
  const PADDED_LEFT: seq<seq<byte>> := [[SPACE, SPACE, SPACE, SPACE], [SPACE, SPACE], [SPACE], [SPACE]]
  const PADDED_RIGHT: seq<seq<byte>> := [[SPACE, SPACE, SPACE], [SPACE, SPACE, SPACE], [SPACE, SPACE, SPACE], [SPACE, SPACE, SPACE]]

  lemma RowDepositPaddedText()
    ensures Ascii("    deposit   ,  1   , 1   , 1.0   ") == Join(Padded(PADDED_CELLS, PADDED_LEFT, PADDED_RIGHT))
  {
    PaddedRowBytes();
    PaddedRowJoined();
  }

  /** The padded row, byte by byte. */
  const PADDED_ROW: seq<byte> := [32, 32, 32, 32, 100, 101, 112, 111, 115, 105, 116, 32, 32, 32, 44,
                                  32, 32, 49, 32, 32, 32, 44, 32, 49, 32, 32, 32, 44, 32, 49, 46, 48, 32, 32, 32]

  lemma PaddedRowBytes()
    ensures Ascii("    deposit   ,  1   , 1   , 1.0   ") == PADDED_ROW
  {
  }

  lemma PaddedRowJoined()
    ensures PADDED_ROW == Join(Padded(PADDED_CELLS, PADDED_LEFT, PADDED_RIGHT))
  {
    var a: seq<byte> := [32, 32, 32, 32, 100, 101, 112, 111, 115, 105, 116, 32, 32, 32];
    var b: seq<byte> := [32, 32, 49, 32, 32, 32];
    var c: seq<byte> := [32, 49, 32, 32, 32];
    var d: seq<byte> := [32, 49, 46, 48, 32, 32, 32];
    PaddedCellBytes(a, b, c, d);
    assert PADDED_ROW == a + [COMMA] + b + [COMMA] + c + [COMMA] + d;
    Join4(a, b, c, d);
  }

  lemma PaddedCellBytes(a: seq<byte>, b: seq<byte>, c: seq<byte>, d: seq<byte>)
    requires a == [32, 32, 32, 32, 100, 101, 112, 111, 115, 105, 116, 32, 32, 32]
    requires b == [32, 32, 49, 32, 32, 32] && c == [32, 49, 32, 32, 32] && d == [32, 49, 46, 48, 32, 32, 32]
    ensures Padded(PADDED_CELLS, PADDED_LEFT, PADDED_RIGHT) == [a, b, c, d]
  {
    var p := Padded(PADDED_CELLS, PADDED_LEFT, PADDED_RIGHT);
    assert p[0] == PADDED_LEFT[0] + DEPOSIT + PADDED_RIGHT[0] == a;
    assert p[1] == PADDED_LEFT[1] + ONE + PADDED_RIGHT[1] == b;
    assert p[2] == PADDED_LEFT[2] + ONE + PADDED_RIGHT[2] == c;
    assert p[3] == PADDED_LEFT[3] + ONE_POINT_ZERO + PADDED_RIGHT[3] == d;
  }

  /** `    deposit   ,  1   , 1   , 1.0   `: whitespace around the cells changes nothing. */
  lemma RowDepositPadded()
    ensures ParseRow(Ascii("    deposit   ,  1   , 1   , 1.0   ")) == Ok(Row(1, Transaction(Deposit, 1, Amount(10000))))
  {
    RowDepositPaddedText();
    WordIsBare(Deposit);
    OneIsBare();
    OnePointZeroIsBare();
    assert forall k | 0 <= k < 4 :: AllSpace(PADDED_LEFT[k]) && AllSpace(PADDED_RIGHT[k]);
    PaddedLine(PADDED_CELLS, PADDED_LEFT, PADDED_RIGHT);
    ColumnsRead(PADDED_CELLS, Deposit, 1, 1, Amount(10000));
  }

  lemma RowWithdrawalText()
    ensures Ascii("withdrawal, 1, 1, 1.0") == Line([SPACE], WITHDRAWAL, ONE, ONE, ONE_POINT_ZERO)
  {
    LineBytes([SPACE], WITHDRAWAL, ONE, ONE, ONE_POINT_ZERO);
  }

  /** `withdrawal, 1, 1, 1.0` is a withdrawal of 1. */
  lemma RowWithdrawal()
    ensures ParseRow(Ascii("withdrawal, 1, 1, 1.0")) == Ok(Row(1, Transaction(Withdrawal, 1, Amount(10000))))
  {
    var line := Line([SPACE], WITHDRAWAL, ONE, ONE, ONE_POINT_ZERO);
    RowWithdrawalText();
    OnePointZeroIsBare();
    SpacedRowOk(line, Withdrawal, ONE_POINT_ZERO, Amount(10000));
  }

  lemma RowDisputeText()
    ensures Ascii("dispute, 1, 1, ") == Line([SPACE], DISPUTE, ONE, ONE, [])
  {
    LineBytes([SPACE], DISPUTE, ONE, ONE, []);
  }

  /** `dispute, 1, 1, ` has an empty amount cell and gets zero. */
  lemma RowDispute()
    ensures ParseRow(Ascii("dispute, 1, 1, ")) == Ok(Row(1, Transaction(Dispute, 1, Zero())))
  {
    var line := Line([SPACE], DISPUTE, ONE, ONE, []);
    RowDisputeText();
    SpacedRowOk(line, Dispute, [], Zero());
  }

  lemma RowResolveText()
    ensures Ascii("resolve, 1, 1, ") == Line([SPACE], RESOLVE, ONE, ONE, [])
  {
    LineBytes([SPACE], RESOLVE, ONE, ONE, []);
  }

  lemma RowResolve()
    ensures ParseRow(Ascii("resolve, 1, 1, ")) == Ok(Row(1, Transaction(Resolve, 1, Zero())))
  {
    var line := Line([SPACE], RESOLVE, ONE, ONE, []);
    RowResolveText();
    SpacedRowOk(line, Resolve, [], Zero());
  }

  lemma RowChargebackText()
    ensures Ascii("chargeback, 1, 1, ") == Line([SPACE], CHARGEBACK, ONE, ONE, [])
  {
    LineBytes([SPACE], CHARGEBACK, ONE, ONE, []);
  }

  lemma RowChargeback()
    ensures ParseRow(Ascii("chargeback, 1, 1, ")) == Ok(Row(1, Transaction(Chargeback, 1, Zero())))
  {
    var line := Line([SPACE], CHARGEBACK, ONE, ONE, []);
    RowChargebackText();
    SpacedRowOk(line, Chargeback, [], Zero());
  }

  // ---------------------------------------------------------------------
  // Refused rows
  // ---------------------------------------------------------------------

  /** An empty line has one column. */
  lemma RowEmpty()
    ensures ParseRow(Ascii("")) == Err(CsvMissingColumn)
  {
    assert Ascii("") == [];
    MissingColumnIff([]);
  }

  /** `,,` has three columns. */
  lemma RowTwoCommas()
    ensures ParseRow(Ascii(",,")) == Err(CsvMissingColumn)
  {
    assert Ascii(",,") == [COMMA, COMMA];
    assert CommaCount([]) == 0;
    assert CommaCount([COMMA]) == 1 by { assert [COMMA][1..] == []; }
    assert CommaCount([COMMA, COMMA]) == 2 by { assert [COMMA, COMMA][1..] == [COMMA]; }
    MissingColumnIff([COMMA, COMMA]);
  }

  /** `deposit,1,1` lacks the amount column. */
  lemma RowNoAmountColumn()
    ensures ParseRow(Ascii("deposit,1,1")) == Err(CsvMissingColumn)
  {
    var buf := DEPOSIT + [COMMA] + ONE + [COMMA] + ONE;
    assert Ascii("deposit,1,1") == buf;
    WordIsBare(Deposit);
    OneIsBare();
    Join3(DEPOSIT, ONE, ONE);
    ColumnsOfJoin([DEPOSIT, ONE, ONE]);
    MissingColumnIff(buf);
  }

  /** `,,,` has four columns, the first of them empty: no type word. */
  lemma RowThreeCommas()
    ensures ParseRow(Ascii(",,,")) == Err(CsvUnknownTransactionType)
  {
    LineBytes([], [], [], [], []);
    assert Ascii(",,,") == Line([], [], [], [], []);
    LineRefused([], [], [], [], [], Deposit);
  }

  /** `,,,,,,`: the columns after the fourth are not looked at, and the first is empty. */
  lemma RowSixCommas()
    ensures ParseRow(Ascii(",,,,,,")) == Err(CsvUnknownTransactionType)
  {
    var buf := Line([], [], [], [], []);
    LineBytes([], [], [], [], []);
    assert Ascii(",,,,,,") == buf + [COMMA] + [COMMA, COMMA];
    RowThreeCommas();
    assert Ascii(",,,") == buf;
    MissingColumnIff(buf);
    ExtraColumnsIgnored(buf, [COMMA, COMMA]);
  }

  lemma RowDepositWithoutAmountText()
    ensures Ascii("deposit,1,1,") == Line([], DEPOSIT, ONE, ONE, [])
  {
    LineBytes([], DEPOSIT, ONE, ONE, []);
  }

  /** `deposit,1,1,`: a deposit needs an amount. */
  lemma RowDepositWithoutAmount()
    ensures ParseRow(Ascii("deposit,1,1,")) == Err(CsvInvalidAmount)
  {
    var line := Line([], DEPOSIT, ONE, ONE, []);
    RowDepositWithoutAmountText();
    WordIsBare(Deposit);
    OneIsBare();
    LineRefused([], DEPOSIT, ONE, ONE, [], Deposit);
  }

  lemma RowResolveWithAmountText()
    ensures Ascii("resolve,1,1,1.0") == Line([], RESOLVE, ONE, ONE, ONE_POINT_ZERO)
  {
    LineBytes([], RESOLVE, ONE, ONE, ONE_POINT_ZERO);
  }

  /** `resolve,1,1,1.0`: a resolve must not carry an amount. */
  lemma RowResolveWithAmount()
    ensures ParseRow(Ascii("resolve,1,1,1.0")) == Err(CsvUnexpectedAmount)
  {
    var line := Line([], RESOLVE, ONE, ONE, ONE_POINT_ZERO);
    RowResolveWithAmountText();
    WordIsBare(Resolve);
    OneIsBare();
    OnePointZeroIsBare();
    LineRefused([], RESOLVE, ONE, ONE, ONE_POINT_ZERO, Resolve);
  }

  lemma RowUnknownTypeText()
    ensures Ascii("foo, 1, 1, 1.0") == Line([SPACE], FOO, ONE, ONE, ONE_POINT_ZERO)
  {
    LineBytes([SPACE], FOO, ONE, ONE, ONE_POINT_ZERO);
  }

  /** `foo, 1, 1, 1.0`: an unknown type word. */
  lemma RowUnknownType()
    ensures ParseRow(Ascii("foo, 1, 1, 1.0")) == Err(CsvUnknownTransactionType)
  {
    var line := Line([SPACE], FOO, ONE, ONE, ONE_POINT_ZERO);
    RowUnknownTypeText();
    FooIsBare();
    OneIsBare();
    OnePointZeroIsBare();
    LineRefused([SPACE], FOO, ONE, ONE, ONE_POINT_ZERO, Deposit);
  }

  lemma RowBadClientIdText()
    ensures Ascii("withdrawal, foo, 1, 1.0") == Line([SPACE], WITHDRAWAL, FOO, ONE, ONE_POINT_ZERO)
  {
    LineBytes([SPACE], WITHDRAWAL, FOO, ONE, ONE_POINT_ZERO);
  }

  /** `withdrawal, foo, 1, 1.0`: the client id is no number. */
  lemma RowBadClientId()
    ensures ParseRow(Ascii("withdrawal, foo, 1, 1.0")) == Err(CsvInvalidClientId)
  {
    var line := Line([SPACE], WITHDRAWAL, FOO, ONE, ONE_POINT_ZERO);
    RowBadClientIdText();
    WordIsBare(Withdrawal);
    FooIsBare();
    OneIsBare();
    OnePointZeroIsBare();
    LineRefused([SPACE], WITHDRAWAL, FOO, ONE, ONE_POINT_ZERO, Withdrawal);
  }

  lemma RowBadTxIdText()
    ensures Ascii("withdrawal, 1, foo, 1.0") == Line([SPACE], WITHDRAWAL, ONE, FOO, ONE_POINT_ZERO)
  {
    LineBytes([SPACE], WITHDRAWAL, ONE, FOO, ONE_POINT_ZERO);
  }

  /** `withdrawal, 1, foo, 1.0`: the transaction id is no number. */
  lemma RowBadTxId()
    ensures ParseRow(Ascii("withdrawal, 1, foo, 1.0")) == Err(CsvInvalidTxId)
  {
    var line := Line([SPACE], WITHDRAWAL, ONE, FOO, ONE_POINT_ZERO);
    RowBadTxIdText();
    WordIsBare(Withdrawal);
    FooIsBare();
    OneIsBare();
    OnePointZeroIsBare();
    LineRefused([SPACE], WITHDRAWAL, ONE, FOO, ONE_POINT_ZERO, Withdrawal);
  }
}
