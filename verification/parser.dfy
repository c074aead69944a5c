/**
 * `Row::parse` of src/parser.rs: one CSV line with the columns
 * "type, client, tx, amount" turned into a client id and a transaction, or
 * into the first error the line shows.
 *
 * The line is cut at every comma (Split), each piece is trimmed of ASCII
 * whitespace (Columns), and the first four columns are examined in order:
 * the type, the client id, the transaction id, then the amount. Columns
 * after the fourth are never looked at.
 */
module Parser {
  import opened Wrappers
  import opened Errors
  import opened Decimal
  import opened Amounts
  import opened AccountSpec

  /** `Row`: the client a transaction belongs to, and the transaction. */
  datatype Row = Row(clientId: ClientId, transaction: Transaction)

  const COMMA: byte := 44  // b','

  /** `u8::is_ascii_whitespace`: space, tab, line feed, form feed, carriage return. */
  predicate IsAsciiWhitespace(b: byte) {
    b == 32 || b == 9 || b == 10 || b == 12 || b == 13
  }

  // ---------------------------------------------------------------------
  // Trimming
  // ---------------------------------------------------------------------

  predicate AllSpace(s: seq<byte>) {
    forall i | 0 <= i < |s| :: IsAsciiWhitespace(s[i])
  }

  /** s is a run of whitespace followed by r. */
  predicate SpaceThen(s: seq<byte>, r: seq<byte>)
    decreases |s|
  {
    s == r || (s != [] && IsAsciiWhitespace(s[0]) && SpaceThen(s[1..], r))
  }

  /**
   * `<[u8]>::trim_ascii_start`: s without its leading whitespace. What is
   * removed is a run of whitespace, and the first byte kept is not
   * whitespace; ParserLemmas.SpaceThenSuffix and
   * ParserLemmas.SuffixSpaceThen restate this with slices.
   */
  function TrimStart(s: seq<byte>): (r: seq<byte>)
    ensures |r| <= |s| && SpaceThen(s, r)
    ensures r != [] ==> !IsAsciiWhitespace(r[0])
    decreases |s|
  {
    if s != [] && IsAsciiWhitespace(s[0]) then TrimStart(s[1..]) else s
  }

  /**
   * `<[u8]>::trim_ascii_end`: s without its trailing whitespace. The bytes
   * removed are all whitespace, the bytes kept are the front of s, and the
   * last byte kept is not whitespace.
   */
  function TrimEnd(s: seq<byte>): (r: seq<byte>)
    ensures |r| <= |s| && r == s[..|r|]
    ensures AllSpace(s[|r|..])
    ensures r != [] ==> !IsAsciiWhitespace(r[|r| - 1])
    decreases |s|
  {
    if s != [] && IsAsciiWhitespace(s[|s| - 1]) then
      var r := TrimEnd(s[..|s| - 1]);
      assert s[|r|..] == s[..|s| - 1][|r|..] + [s[|s| - 1]];
      r
    else s
  }

  /**
   * `<[u8]>::trim_ascii`, which trims the start and then the end: a slice
   * of s that neither starts nor ends with whitespace (ParserLemmas.TrimSlice
   * shows that only whitespace is cut from either side).
   */
  function TrimAscii(s: seq<byte>): (r: seq<byte>)
    ensures |r| <= |s|
    ensures r != [] ==> !IsAsciiWhitespace(r[0]) && !IsAsciiWhitespace(r[|r| - 1])
  {
    TrimEnd(TrimStart(s))
  }

  // ---------------------------------------------------------------------
  // Cutting a line at its commas
  // ---------------------------------------------------------------------

  function CommaCount(s: seq<byte>): nat
  {
    Commas(s)
  }

  /** CommaCount, one byte at a time from the left. */
  function Commas(s: seq<byte>): nat
    decreases |s|
  {
    if s == [] then 0 else (if s[0] == COMMA then 1 else 0) + Commas(s[1..])
  }

  predicate NoComma(s: seq<byte>) {
    forall i | 0 <= i < |s| :: s[i] != COMMA
  }

  /**
   * The pieces of s between commas, as `memchr_iter(b',', buf)` chained with
   * `buf.len()` and the `scan` over them produce them: one more piece than
   * there are commas, none of them holding a comma. An empty line is one
   * empty piece.
   */
  function Split(s: seq<byte>): seq<seq<byte>>
  {
    Pieces(s)
  }

  /** Split, one byte at a time from the left. */
  function Pieces(s: seq<byte>): (parts: seq<seq<byte>>)
    ensures |parts| == CommaCount(s) + 1
    ensures forall k | 0 <= k < |parts| :: NoComma(parts[k])
    decreases |s|
  {
    if s == [] then [[]]
    else
      var rest := Pieces(s[1..]);
      if s[0] == COMMA then [[]] + rest
      else [[s[0]] + rest[0]] + rest[1..]
  }

  /** The pieces put back together with a comma between each two. */
  function Join(parts: seq<seq<byte>>): seq<byte>
    requires |parts| >= 1
  {
    Joined(parts)
  }

  /** Join, one piece at a time from the left. */
  function Joined(parts: seq<seq<byte>>): seq<byte>
    requires |parts| >= 1
    decreases |parts|
  {
    if |parts| == 1 then parts[0] else parts[0] + [COMMA] + Joined(parts[1..])
  }

  /** Cutting a line and joining the pieces gives the line back. */
  lemma {:induction false} JoinSplit(s: seq<byte>)
    ensures Join(Split(s)) == s
    decreases |s|
  {
    if s != [] {
      JoinSplit(s[1..]);
      var rest := Split(s[1..]);
      if s[0] != COMMA && |rest| > 1 {
        assert Split(s)[1..] == rest[1..];
      }
    }
  }

  /** Joining pieces free of commas and cutting the result gives the pieces back. */
  lemma {:induction false} SplitJoin(parts: seq<seq<byte>>)
    requires |parts| >= 1
    requires forall k | 0 <= k < |parts| :: NoComma(parts[k])
    ensures Split(Join(parts)) == parts
    decreases |parts|, |parts[0]|
  {
    var p := parts[0];
    if p == [] {
      if |parts| > 1 {
        SplitJoin(parts[1..]);
        assert Join(parts) == [COMMA] + Join(parts[1..]);
        assert Join(parts)[1..] == Join(parts[1..]);
        assert parts == [[]] + parts[1..];
      }
    } else {
      var shorter := parts[0 := p[1..]];
      assert shorter[1..] == parts[1..];
      SplitJoin(shorter);
      assert Join(parts) == [p[0]] + Join(shorter);
      assert Join(parts)[1..] == Join(shorter);
      assert [p[0]] + p[1..] == p;
    }
  }

  /** A comma splices the pieces of the two sides. */
  lemma SplitAppend(a: seq<byte>, b: seq<byte>)
    ensures Split(a + [COMMA] + b) == Split(a) + Split(b)
  {
    JoinSplit(a);
    JoinSplit(b);
    JoinAppend(Split(a), Split(b));
    SplitJoin(Split(a) + Split(b));
  }

  lemma {:induction false} JoinAppend(xs: seq<seq<byte>>, ys: seq<seq<byte>>)
    requires |xs| >= 1 && |ys| >= 1
    ensures Join(xs + ys) == Join(xs) + [COMMA] + Join(ys)
    decreases |xs|
  {
    if |xs| > 1 {
      assert (xs + ys)[1..] == xs[1..] + ys;
      JoinAppend(xs[1..], ys);
    }
  }

  /** The trimmed columns of a line. */
  function Columns(buf: seq<byte>): (cols: seq<seq<byte>>)
    ensures |cols| == CommaCount(buf) + 1
    ensures forall k | 0 <= k < |cols| :: cols[k] == TrimAscii(Split(buf)[k])
  {
    var parts := Split(buf);
    seq(|parts|, k requires 0 <= k < |parts| => TrimAscii(parts[k]))
  }

  // ---------------------------------------------------------------------
  // The transaction type
  // ---------------------------------------------------------------------

  // The type words, byte by byte.
  const DEPOSIT: seq<byte> := [100, 101, 112, 111, 115, 105, 116]                // b"deposit"
  const WITHDRAWAL: seq<byte> := [119, 105, 116, 104, 100, 114, 97, 119, 97, 108] // b"withdrawal"
  const DISPUTE: seq<byte> := [100, 105, 115, 112, 117, 116, 101]                 // b"dispute"
  const RESOLVE: seq<byte> := [114, 101, 115, 111, 108, 118, 101]                 // b"resolve"
  const CHARGEBACK: seq<byte> := [99, 104, 97, 114, 103, 101, 98, 97, 99, 107]    // b"chargeback"

  /** The word a row uses for each kind of transaction. */
  function KindName(kind: TransactionKind): seq<byte> {
    match kind
      case Deposit => DEPOSIT
      case Withdrawal => WITHDRAWAL
      case Dispute => DISPUTE
      case Resolve => RESOLVE
      case Chargeback => CHARGEBACK
  }

  /** The `match ttype { b"deposit" => .., .. }` of `Row::parse`: only the exact words are accepted. */
  function KindOfToken(token: seq<byte>): (r: Option<TransactionKind>)
    ensures r.Some? ==> KindName(r.value) == token
    ensures r.None? ==> forall kind: TransactionKind :: KindName(kind) != token
  {
    if token == DEPOSIT then Some(Deposit)
    else if token == WITHDRAWAL then Some(Withdrawal)
    else if token == DISPUTE then Some(Dispute)
    else if token == RESOLVE then Some(Resolve)
    else if token == CHARGEBACK then Some(Chargeback)
    else None
  }

  // ---------------------------------------------------------------------
  // A row
  // ---------------------------------------------------------------------

  const CLIENT_ID_MAX: nat := 0xFFFF
  const TX_ID_MAX: nat := 0xFFFF_FFFF

  /**
   * The amount rule of `Row::parse`: deposits and withdrawals must carry an
   * amount `Amount::parse` accepts, the other kinds must leave the column
   * empty and get zero.
   */
  function AmountOf(kind: TransactionKind, text: seq<byte>): (r: Result<Amount, Error>)
    ensures HasAmount(kind) && r.Ok? ==> ParseSpec(text) == Some(r.value)
    ensures HasAmount(kind) && r.Err? ==> ParseSpec(text) == None && r.error == CsvInvalidAmount
    ensures !HasAmount(kind) ==> (r.Ok? <==> text == [])
    ensures !HasAmount(kind) ==> r == Ok(Zero()) || r == Err(CsvUnexpectedAmount)
  {
    if HasAmount(kind) then
      match ParseSpec(text)
        case None => Err(CsvInvalidAmount)
        case Some(amount) => Ok(amount)
    else if text != [] then Err(CsvUnexpectedAmount)
    else Ok(Zero())
  }

  /**
   * The checks of `Row::parse` on the trimmed columns, in the order of the
   * source: at least four columns, a known type, a client id, a transaction
   * id, then the amount.
   */
  function ParseColumns(cols: seq<seq<byte>>): (r: Result<Row, Error>)
    ensures r.Ok? ==> |cols| >= 4 && KindName(r.value.transaction.kind) == cols[0]
    ensures r.Ok? ==> Atoi(cols[1], CLIENT_ID_MAX) == Some(r.value.clientId as nat)
    ensures r.Ok? ==> Atoi(cols[2], TX_ID_MAX) == Some(r.value.transaction.id as nat)
    ensures r.Ok? ==> AmountOf(r.value.transaction.kind, cols[3]) == Ok(r.value.transaction.amount)
  {
    if |cols| < 4 then Err(CsvMissingColumn)
    else match KindOfToken(cols[0])
      case None => Err(CsvUnknownTransactionType)
      case Some(kind) =>
        match Atoi(cols[1], CLIENT_ID_MAX)
        case None => Err(CsvInvalidClientId)
        case Some(clientId) =>
          match Atoi(cols[2], TX_ID_MAX)
          case None => Err(CsvInvalidTxId)
          case Some(txId) =>
            match AmountOf(kind, cols[3])
            case Err(e) => Err(e)
            case Ok(amount) => Ok(Row(clientId, Transaction(kind, txId, amount)))
  }

  /** `Row::parse`: one line cut into trimmed columns, then checked. */
  function ParseRow(buf: seq<byte>): Result<Row, Error> {
    ParseColumns(Columns(buf))
  }
}
