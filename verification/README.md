# Toy payments engine: a Dafny model

This project models the core of a small payments engine. The engine reads
CSV rows of transactions and keeps one account per client. A transaction is
a deposit, a withdrawal, a dispute, a resolve or a chargeback.

The model has three parts.

- **Amounts** (`src/amount.rs`). An `Amount` is a `u64` that holds the value
  times 10^4. It has checked addition and subtraction, a byte-string parser
  and a formatter.
  - `Amounts.Parse` and `Amounts.Format` keep the source's loops: the fraction
    loop with its early `break`, the loop that checks the truncated digits,
    and the loop that divides the remainder by ten.
  - Each of these methods is proved equal to a declarative function,
    `ParseSpec` and `FormatSpec`.
  - Module `Decimal` stands in for the library code both sides use. That is
    `atoi`'s `from_radix_10_checked` and `atoi::atoi`, and Rust's `{}`
    formatting of an unsigned integer. Each is a recursive definition over
    the digits.
  - `AmountVectors` also reads the amounts the account tests write as text
    ("10.5", "3", ...), so the account scenarios can use their values.
- **The ledger** (`src/accounts.rs`).
  - `Accounts.Account` is a class with the fields of `Account`: a `seq` of
    deposit records, `total`, `held` and `frozen`.
  - `Accounts.ClientsDatabase` is a class holding a `map` from client id to
    `Account` objects.
  - Their methods update these fields in place. They are proved to do what
    the value-level functions `AccountSpec.Step` (one account) and
    `AccountSpec.Route` (the map of accounts) compute.
  - The ledger's properties are proved about `Step`, `Route` and `Run`. These
    properties are the invariants the code relies on, the outcome of each
    transaction kind, all-or-nothing errors, and frozen accounts staying
    frozen.
- **The CSV row parser** (`src/parser.rs`).
  - `Parser.ParseRow` is `Row::parse`. It cuts the line at every comma, trims
    each piece of ASCII whitespace, and then checks the first four columns in
    the source's order.
  - The lemmas give the error each kind of bad row gets. They also show that
    any row the parser produces, written out again with the corrected amount
    formatter `Amounts.FormatFixed`, reads back as the same row. With the code's own
    formatter this fails for amounts such as 1.05 (see Findings).

The error enum of `src/error.rs` is the datatype `Errors.Error`, with the
same variant names. Bytes are `Decimal.byte`, an `int` in [0, 256). Rust's
`u64`, `u32` and `u16` are subset types of `int` whose bounds are checked
where the source checks them.

Where the design text and the code disagree, the model follows the code:

- The parser does not require a digit before the `.`. The model relies on
  the assumption the code makes about `from_radix_10_checked`: when there is
  no leading digit, it returns the value 0 and a length of 0. So ".", "0."
  and ".5" are accepted (`AmountLemmas.ParseDotAlone`,
  `AmountLemmas.ParseDecimal`), while an empty input is refused.
- The design says that parsing a decimal text with at most four fractional
  digits and formatting it again reproduces the trimmed text. The code does
  this only when the first fractional digit is not zero (see Findings).
- The design describes `held` as the sum of the amounts under dispute. The
  code keeps this only until a chargeback. A chargeback (src/accounts.rs:144-152)
  lowers `held` by the deposit's amount, but it leaves the deposit marked as
  disputed. From then on the account is frozen and never changes. So the
  account invariant `AccountSpec.Inv` states `frozen || held == HeldSum(deposits)`:
  the sum of the disputed deposits bounds `held` only on accounts that are not frozen.

## Model

| member | source | states |
|---|---|---|
| Decimal.AsciiToDigit | src/amount.rs:43 | `ascii_to_digit` gives a value exactly for the ten ASCII digits, and that value is the digit's weight (0..9) |
| Decimal.RunLength | src/amount.rs:35 | the length `from_radix_10_checked` consumes: every byte of the leading run is a digit, and the byte after the run, if any, is not a digit |
| Decimal.DecimalDigits | src/amount.rs:15 | `{}` formatting of an unsigned integer gives a canonical numeral (digits only, no leading zero) whose value is the integer |
| Decimal.CanonicalIsFormatted | src/amount.rs:15 | every canonical numeral is the formatting of its own value, so integer formatting is a bijection onto canonical numerals |
| Decimal.NatToDecimalLength | src/amount.rs:20 | a number's decimal form has at most k digits exactly when the number is below 10^k |
| Decimal.DigitsInjective | src/amount.rs:41-47 | two digit strings of equal length with equal value are equal |
| Decimal.DigitsAppend | src/amount.rs:41-47 | the value of concatenated digit strings is the left value shifted by the length of the right plus the right value |
| Amounts.PlacesModIsPow10 | src/amount.rs:4-5 | PLACES_MOD is 10 to the power PLACES |
| Amounts.Zero | src/amount.rs:27-29 | `Amount::zero()` is the identity of checked addition and of checked subtraction |
| Amounts.CheckedAdd | src/amount.rs:60-62 | the sum of the scaled values, present exactly when it fits in a `u64` |
| Amounts.CheckedSub | src/amount.rs:64-66 | the difference of the scaled values, present exactly when it does not go below zero |
| Amounts.AddSubInverse | src/amount.rs:60-66 | a + b = c succeeds exactly when c - b = a succeeds, so the two checked operations are inverse |
| Amounts.FracValue | src/amount.rs:41-47 | the fraction's value in units of 10^-4 is always below PLACES_MOD, so the `u16` accumulator never overflows |
| Amounts.FracStep | src/amount.rs:46 | one pass of the fraction loop adds the digit at weight 10^(PLACES-place-1) and keeps the accumulator below PLACES_MOD |
| Amounts.FracValueOfPrefix | src/amount.rs:41-47 | the fraction is the first min(len, PLACES) digits padded on the right with zeros |
| Amounts.ParseSpecAfterDot | src/amount.rs:38-54 | after the `.`, any non-digit in the rest refuses the input; otherwise the result is the scaled whole plus the fraction, refused on `u64` overflow |
| Amounts.Parse | src/amount.rs:31-58 | the method with the source's control flow returns exactly what ParseSpec specifies |
| Amounts.ParseFraction | src/amount.rs:39-53 | the two loops of the `.` branch: a non-digit anywhere in the fraction, truncated digits included, gives None; otherwise the checked sum of the scaled whole and the fraction value |
| Amounts.StripZeros | src/amount.rs:17-19 | the result followed by some zeros is the input, and the result does not end in a zero |
| Amounts.NatToDecimalDiv10 | src/amount.rs:17-18 | dividing a multiple of ten by ten does not change its numeral once trailing zeros are stripped (the loop invariant of `fmt`) |
| Amounts.Format | src/amount.rs:11-24 | the method with the `while` loop writes exactly what FormatSpec specifies |
| Amounts.FourPlaces | src/amount.rs:14 | the remainder written with its leading zeros to exactly PLACES digits has the remainder as its value |
| AmountLemmas.ParseWhole | src/amount.rs:35-37 | a run of digits N with nothing after it reads as N × 10000, or None when that overflows |
| AmountLemmas.ParseDecimal | src/amount.rs:35-54 | "d.f" with digit strings d and f reads as d × 10000 + fraction(f), or None when that overflows |
| AmountLemmas.ParseDecimalOverflow | src/amount.rs:36 | when the scaled whole part overflows, the input is refused whatever follows the dot |
| AmountLemmas.ParseSpecWholeOverflow | src/amount.rs:36 | a whole part whose scaled value exceeds u64::MAX refuses the input |
| AmountLemmas.ParseStrayByte | src/amount.rs:55 | a byte after the digits that is neither a digit nor `.` refuses the input |
| AmountLemmas.ParseBadFraction | src/amount.rs:41-51 | a fraction with any non-digit byte, before or after the fourth place, refuses the input |
| AmountLemmas.ParseAcceptedShape | src/amount.rs:32-38 | any accepted input is non-empty and starts with a digit or `.` |
| AmountLemmas.FracTruncates | src/amount.rs:41-51 | digits past the fourth do not change the fraction: truncated, not rounded |
| AmountLemmas.FracOfShort | src/amount.rs:41-47 | a fraction of at most four digits counts missing places as zero |
| AmountLemmas.FracTrailingZero | src/amount.rs:41-47 | appending a zero to a short fraction does not change its value ("1.1" and "1.10" agree) |
| AmountLemmas.ParseDotAlone | src/amount.rs:38-53 | "N." reads as the same value as "N" |
| AmountLemmas.FracWeights | src/amount.rs:46 | the fraction is 1000, 100, 10 and 1 times its first four digits, a missing digit counting as zero |
| AmountLemmas.StripUnique | src/amount.rs:17-19 | stripping the zeros appended to a string that does not end in zero gives the string back |
| AmountLemmas.FormatParts | src/amount.rs:13-21 | with a non-zero remainder the formatter writes the whole part, `.`, and the remainder's numeral without trailing zeros |
| AmountLemmas.FormatWhole | src/amount.rs:13-16 | with a zero remainder only the whole part is written, with no `.` |
| AmountLemmas.FormatWholeRoundTrip | src/amount.rs:13-16 | amounts with a zero remainder read back as themselves |
| AmountLemmas.FormatReadsBackAs | src/amount.rs:13-21 | what the written amount reads back as: the remainder is shifted left by the number of leading zeros the formatter dropped |
| AmountLemmas.FormatRoundTripIff | src/amount.rs:13-21 | formatting then parsing gives the amount back if and only if the remainder is zero or at least 1000 |
| AmountLemmas.ShiftedIsSelf | src/amount.rs:13-21 | a non-zero remainder shifted by some number of places keeps its value only when there is no shift |
| AmountLemmas.FormatFixedRoundTrip | src/amount.rs:13-21 | the corrected formatter: every amount, written out, reads back as itself |
| AmountLemmas.ParsedParts | src/amount.rs:38-53 | "w.f" with a short fraction that does not end in zero reads as an amount whose whole part is w and whose remainder is the fraction, padded with zeros to four places |
| AmountLemmas.ParseThenFormat | src/amount.rs:13-21 | parse then format reproduces "w.f" (canonical w, 1-4 fraction digits, no trailing zero): always with the corrected formatter, and with the code's formatter when f does not start with zero |
| AmountLemmas.ParseThenFormatWhole | src/amount.rs:13-16 | a canonical whole number parses and formats back to itself |
| AmountLemmas.FormatLosesLeadingZero | src/amount.rs:13-21 | "1.05" reads as 10500, and what the code writes for 10500 reads back as 15000 |
| AmountLemmas.FormatTenThousandFiveHundred | src/amount.rs:20 | the code writes 10500 as "1.5", and the corrected formatter writes it as "1.05" |
| AmountLemmas.ParseOneOhFive | src/amount.rs:38-53 | "1.05" reads as 10500 |
| AmountVectors.VectorZero | src/amount.rs:75 | "0" reads as 0 |
| AmountVectors.VectorZeroDot | src/amount.rs:76 | "0." reads as 0 |
| AmountVectors.VectorZeroOnePlace | src/amount.rs:77 | "0.0" reads as 0 |
| AmountVectors.VectorZeroTwoPlaces | src/amount.rs:78 | "0.00" reads as 0 |
| AmountVectors.VectorOne | src/amount.rs:80 | "1" reads as 10000 |
| AmountVectors.VectorOneDot | src/amount.rs:81 | "1." reads as 10000 |
| AmountVectors.VectorOnePointZero | src/amount.rs:82 | "1.0" reads as 10000 |
| AmountVectors.VectorOnePlace | src/amount.rs:83 | "1.1" reads as 11000 |
| AmountVectors.VectorTwoPlaces | src/amount.rs:84 | "1.12" reads as 11200 |
| AmountVectors.VectorThreePlaces | src/amount.rs:85 | "1.123" reads as 11230 |
| AmountVectors.VectorFourPlaces | src/amount.rs:86 | "1.1234" reads as 11234 |
| AmountVectors.VectorFivePlacesTruncated | src/amount.rs:87 | "1.12345" reads as 11234: the fifth digit is dropped |
| AmountVectors.VectorWholeOverflow | src/amount.rs:90 | "18446744073709551615" is refused: the scaled whole part overflows |
| AmountVectors.VectorWholeOverflowShort | src/amount.rs:91 | "18446744073709551" is refused for the same reason |
| AmountVectors.VectorLargest | src/amount.rs:92-95 | "1844674407370955.1615" reads as exactly u64::MAX |
| AmountVectors.VectorLargestPlusOne | src/amount.rs:96 | "1844674407370955.1616" is refused: adding the fraction overflows |
| AmountVectors.VectorStrayByte | src/amount.rs:99 | "f" is refused |
| AmountVectors.VectorStrayByteAfterWhole | src/amount.rs:100 | "1f" is refused |
| AmountVectors.VectorBadFractionFirst | src/amount.rs:101 | "1.f" is refused |
| AmountVectors.VectorBadFractionSecond | src/amount.rs:102 | "1.1f" is refused |
| AmountVectors.VectorBadFractionThird | src/amount.rs:103 | "1.12f" is refused |
| AmountVectors.VectorBadFractionFourth | src/amount.rs:104 | "1.123f" is refused |
| AmountVectors.VectorBadFractionFifth | src/amount.rs:105 | "1.1234f" is refused |
| AmountVectors.VectorBadFractionTruncated | src/amount.rs:106 | "1.12345f" is refused: truncated digits must still be digits |
| AmountVectors.VectorDigit | src/accounts.rs:194-196 | a single digit reads as that many whole units |
| AmountVectors.VectorHalf | src/accounts.rs:194-196 | a whole part up to 100 followed by ".5" reads as that many units and a half |
| AmountVectors.TenAnd | src/accounts.rs:194-196 | the two-digit numeral "1d" has the value 10 + d |
| AmountVectors.AccountTestWholes | src/accounts.rs:194-196 | "2", "3", "5" and "6", as the account tests write them, read as 20000, 30000, 50000 and 60000 |
| AmountVectors.VectorEightHalf | src/accounts.rs:194-196 | "8.5" reads as 85000 |
| AmountVectors.VectorTenHalf | src/accounts.rs:194-196 | "10.5" reads as 105000 |
| AmountVectors.VectorElevenHalf | src/accounts.rs:194-196 | "11.5" reads as 115000 |
| AmountVectors.VectorThirteenHalf | src/accounts.rs:194-196 | "13.5" reads as 135000 |
| AmountVectors.FormatVectorZero | src/amount.rs:112 | "0" parses and formats back to "0" |
| AmountVectors.FormatVectorOne | src/amount.rs:113 | "1" parses and formats back to "1" |
| AmountVectors.FormatVectorOnePlace | src/amount.rs:114 | "1.1" parses and formats back to "1.1" |
| AmountVectors.FormatVectorTwoPlaces | src/amount.rs:115 | "1.12" parses and formats back to "1.12" |
| AmountVectors.FormatVectorThreePlaces | src/amount.rs:116 | "1.123" parses and formats back to "1.123" |
| AmountVectors.FormatVectorFourPlaces | src/amount.rs:117 | "1.1234" parses and formats back to "1.1234" |
| AmountVectors.FormatVectorLargest | src/amount.rs:118 | "1844674407370955.1615" parses and formats back to itself |
| AccountSpec.IndexOfId | src/accounts.rs:71-77 | the first position holding the id, or None when no record holds it |
| AccountSpec.IndexOfIdUnique | src/accounts.rs:40 | in an ascending list, the record at position i is the one found for its id |
| AccountSpec.InsertSortedContents | src/accounts.rs:99-106 | inserting a deposit adds exactly that record: a permutation of the old records plus the new one |
| AccountSpec.InsertSortedAscending | src/accounts.rs:40 | inserting a deposit with a new id keeps the ids strictly ascending |
| AccountSpec.InsertAtPoint | src/accounts.rs:88-106 | inserting at the position the binary search returns is the sorted insertion |
| AccountSpec.HeldSumUpdate | src/accounts.rs:126 | flipping one record's disputed flag changes the sum of disputed amounts by exactly that record's weight |
| AccountSpec.HeldSumInsert | src/accounts.rs:99-106 | inserting an undisputed deposit does not change the sum of disputed amounts |
| AccountSpec.DisputedWithinHeld | src/accounts.rs:135 | a disputed deposit's amount is at most the sum of disputed amounts, so the `unwrap`s on `held` cannot fail |
| AccountSpec.Available | src/accounts.rs:52-57 | available funds are zero when frozen, otherwise total − held floored at zero, and never more than total |
| AccountSpec.StepPreservesInv | src/accounts.rs:46-47 | every successful transaction keeps the ids ascending and `held` equal to the sum of the disputed deposits (an unfrozen account) |
| AccountSpec.FrozenRejectsAll | src/accounts.rs:82-84 | a frozen account refuses every transaction with AccountFrozen |
| AccountSpec.FrozenOnlyByChargeback | src/accounts.rs:139-153 | a successful transaction leaves the account frozen if and only if it is a chargeback |
| AccountSpec.DepositOutcome | src/accounts.rs:87-108 | a known id fails with DuplicateTransactionId; an overflow of total fails with DepositOverflow; otherwise total grows by the amount, held is unchanged, an undisputed record is added and the ids stay ascending |
| AccountSpec.WithdrawalOutcome | src/accounts.rs:109-116 | a withdrawal succeeds if and only if the amount is at most the available funds; on success only total changes, dropping by the amount; otherwise WithdrawOverflow |
| AccountSpec.DisputeOutcome | src/accounts.rs:117-128 | an unknown id gives TransactionNotFound, a disputed deposit gives DuplicateDispute, an overflow of held gives HeldOverflow; otherwise held grows by the deposit's amount, the deposit is flagged and total is unchanged |
| AccountSpec.ResolveOutcome | src/accounts.rs:129-138 | an unknown id gives TransactionNotFound, an undisputed deposit gives ResolveNotDisputed; otherwise held drops by the amount, which it covers, and the flag is cleared |
| AccountSpec.ChargebackOutcome | src/accounts.rs:139-154 | an unknown id gives TransactionNotFound, an undisputed deposit gives ChargebackNotDisputed; otherwise held drops by the amount, total drops by it or clamps to zero, and the account is frozen |
| AccountSpec.DisputeThenResolve | src/accounts.rs:117-138 | a successful dispute followed by a resolve of the same id gives back exactly the account before the dispute |
| AccountSpec.FirstDepositSucceeds | src/accounts.rs:176 | a new account accepts any deposit and then holds exactly that deposit |
| AccountSpec.Apply | src/accounts.rs:81-156 | processing a sequence of transactions keeps the account invariant |
| AccountSpec.FrozenIsFinal | src/accounts.rs:82-84 | once frozen, an account is unchanged by any sequence of transactions |
| AccountSpec.FrozenStaysFrozen | src/accounts.rs:152 | `frozen` is never cleared: an account frozen after some transactions is frozen after any more |
| AccountSpec.RoutePreservesInv | src/accounts.rs:165-179 | routing keeps every account's invariant |
| AccountSpec.RouteUnknownClient | src/accounts.rs:173-175 | a non-deposit for an unknown client fails with AccountNotFound and adds no entry |
| AccountSpec.RouteNewClient | src/accounts.rs:172-177 | a deposit for an unknown client succeeds and creates an account holding exactly that deposit |
| AccountSpec.RouteVacantAsEmpty | src/accounts.rs:176 | routing a deposit for an unknown client is the same as inserting a default account first and routing to it |
| AccountSpec.RouteIsolation | src/accounts.rs:170-177 | routing changes no other client's account and adds a key only for a deposit from an unknown client |
| AccountSpec.Run | src/accounts.rs:165-179 | one result per transaction, and every account keeps its invariant |
| AccountSpec.RunAccountsExist | src/accounts.rs:170-177 | after a run, a client has an account if and only if it had one before or one of its deposits succeeded |
| AccountSpec.AccountExistsIffDeposit | src/accounts.rs:170-177 | from an empty ledger, a client has an account if and only if one of its deposits succeeded |
| Accounts.SearchById | src/accounts.rs:88-94 | `binary_search_by_key` on the ids: Ok with a position holding the id, or Err with the position that keeps the ids ascending |
| Accounts.Account.FindDepositId | src/accounts.rs:71-77 | the position of the deposit with the id, or TransactionNotFound exactly when no deposit has it |
| Accounts.Account.constructor | src/accounts.rs:36-49 | `Account::default()`: no deposits, zero total and held, not frozen |
| Accounts.Account.Process | src/accounts.rs:79-156 | the in-place update does what Step says; on any error the fields are exactly as before (all-or-nothing), and the invariant is kept |
| Accounts.ClientsDatabase.constructor | src/accounts.rs:159-162 | an empty ledger |
| Accounts.ClientsDatabase.ProcessExisting | src/accounts.rs:171 | a known client's account processes the transaction; the result and every account's new state are what Route says |
| Accounts.ClientsDatabase.SnapshotAfterOne | src/accounts.rs:171 | when only one client's account changed in place, the map of states changed only at that client |
| Accounts.ClientsDatabase.InsertDefault | src/accounts.rs:176 | a new client gets a default account and no other entry changes |
| Accounts.ClientsDatabase.ProcessTransaction | src/accounts.rs:165-179 | the result and the new map of account states are what Route computes from the old map, and the ledger stays valid |
| AccountScenarios.Trace | src/accounts.rs:199-278 | the results and readings of a run of transactions on one account, ending in the account Apply computes |
| AccountScenarios.NoErrors | src/accounts.rs:199-278 | the test's seven transactions all succeed, with the test's total, held and available after each, and the account ends frozen |
| AccountScenarios.NoErrorsReadings | src/accounts.rs:208-276 | the total, held and available funds the test expects after each step |
| AccountScenarios.ChargebackWouldGoNegative | src/accounts.rs:281-349 | the test's six transactions all succeed; the chargeback of 5 against a total of 3 clamps the total to zero and freezes the account |
| AccountScenarios.NegativeReadings | src/accounts.rs:290-347 | the total, held and available funds the test expects after each step |
| AccountScenarios.WithdrawMoreThanAvailable | src/accounts.rs:352-388 | withdrawing 1 from a new account and 6 after depositing 5 fail with WithdrawOverflow; withdrawing 5 succeeds |
| Parser.TrimStart | src/parser.rs:20 | what is removed from the front is a run of whitespace, and the result does not start with whitespace |
| Parser.TrimEnd | src/parser.rs:20 | the result is a prefix of the input, everything removed after it is whitespace, and it does not end with whitespace |
| Parser.TrimAscii | src/parser.rs:20 | `trim_ascii`: the result neither starts nor ends with whitespace |
| Parser.Pieces | src/parser.rs:16-23 | one more piece than there are commas, and no piece holds a comma |
| Parser.JoinSplit | src/parser.rs:16-23 | joining the pieces with commas gives the line back, so the split loses nothing |
| Parser.SplitJoin | src/parser.rs:16-23 | comma-free pieces joined with commas split back into the same pieces |
| Parser.SplitAppend | src/parser.rs:16-23 | a comma between two byte strings splices their pieces |
| Parser.Columns | src/parser.rs:16-23 | one column per piece, each the piece trimmed of ASCII whitespace |
| Parser.KindOfToken | src/parser.rs:29-36 | a type is found exactly when the token is that type's word, and no other token is accepted |
| Parser.AmountOf | src/parser.rs:41-47 | deposits and withdrawals need an amount Amount::parse accepts, else CsvInvalidAmount; other kinds need an empty column, else CsvUnexpectedAmount, and get zero |
| Parser.ParseColumns | src/parser.rs:24-55 | an accepted row has at least four columns, and its type, ids and amount are what the first four columns say |
| ParserLemmas.SpaceThenSuffix | src/parser.rs:20 | a run of whitespace followed by r ends in r, and everything before r is whitespace |
| ParserLemmas.SuffixSpaceThen | src/parser.rs:20 | conversely, a suffix r of s with only whitespace before it is a run of whitespace followed by r |
| ParserLemmas.TrimSlice | src/parser.rs:20 | `trim_ascii` keeps a contiguous slice of the input, with only whitespace before it and only whitespace after it |
| ParserLemmas.TrimPadded | src/parser.rs:20 | whitespace added on both sides of a column is trimmed away |
| ParserLemmas.TrimUnpadded | src/parser.rs:20 | a column that neither starts nor ends with whitespace is left as it is |
| ParserLemmas.PaddingIgnored | src/parser.rs:20 | adding whitespace around every column does not change what the row parses to |
| ParserLemmas.MissingColumnIff | src/parser.rs:24-27 | a row fails with CsvMissingColumn if and only if it has fewer than three commas |
| ParserLemmas.ExtraColumnsIgnored | src/parser.rs:24-27 | anything after a fourth comma does not change the result |
| ParserLemmas.OnlyFourColumnsRead | src/parser.rs:24-55 | only the first four columns are read |
| ParserLemmas.UnknownTypeIff | src/parser.rs:29-36 | a row fails with CsvUnknownTransactionType if and only if it has four columns and the first is none of the five words |
| ParserLemmas.IdsCheckedInOrder | src/parser.rs:38-39 | with a known type, a bad client id gives CsvInvalidClientId (and only it does), checked before the transaction id, which gives CsvInvalidTxId |
| ParserLemmas.AmountRule | src/parser.rs:41-55 | with a known type and good ids, the amount column decides the outcome: parsed for deposits and withdrawals (empty is CsvInvalidAmount), empty and zero for the other kinds (anything else is CsvUnexpectedAmount) |
| ParserLemmas.ParsedIsProducible | src/parser.rs:43-47 | every row the parser produces has a zero amount when its kind carries none |
| ParserLemmas.RenderRoundTrip | src/parser.rs:15-56 | a row written out with its type word, decimal ids and amount reads back as the same row |
| ParserLemmas.ColumnsOfBare | src/parser.rs:16-23 | comma-free cells with no outer whitespace, joined by commas, are the columns of the line |
| ParserLemmas.KindOfName | src/parser.rs:29-36 | each type word reads back as its type |
| ParserLemmas.AtoiOfNumeral | src/parser.rs:38-39 | `atoi` reads a canonical numeral within range as its value |
| ParserVectors.RowDeposit | src/parser.rs:65-75 | "deposit, 1, 1, 1.0" is a deposit of 1.0 with client 1 and transaction 1 |
| ParserVectors.RowDepositPadded | src/parser.rs:77-88 | "    deposit   ,  1   , 1   , 1.0   " parses to the same row |
| ParserVectors.RowWithdrawal | src/parser.rs:90-100 | "withdrawal, 1, 1, 1.0" is a withdrawal of 1.0 |
| ParserVectors.RowDispute | src/parser.rs:102-112 | "dispute, 1, 1, " is a dispute with a zero amount |
| ParserVectors.RowResolve | src/parser.rs:113-123 | "resolve, 1, 1, " is a resolve with a zero amount |
| ParserVectors.RowChargeback | src/parser.rs:124-134 | "chargeback, 1, 1, " is a chargeback with a zero amount |
| ParserVectors.RowEmpty | src/parser.rs:137-140 | the empty line gives CsvMissingColumn |
| ParserVectors.RowTwoCommas | src/parser.rs:141-144 | ",," gives CsvMissingColumn |
| ParserVectors.RowSixCommas | src/parser.rs:145-148 | ",,,,,," gives CsvUnknownTransactionType |
| ParserVectors.RowThreeCommas | src/parser.rs:149-152 | ",,," gives CsvUnknownTransactionType |
| ParserVectors.RowNoAmountColumn | src/parser.rs:153-156 | "deposit,1,1" gives CsvMissingColumn |
| ParserVectors.RowDepositWithoutAmount | src/parser.rs:157-160 | "deposit,1,1," gives CsvInvalidAmount |
| ParserVectors.RowResolveWithAmount | src/parser.rs:161-164 | "resolve,1,1,1.0" gives CsvUnexpectedAmount |
| ParserVectors.RowUnknownType | src/parser.rs:165-168 | "foo, 1, 1, 1.0" gives CsvUnknownTransactionType |
| ParserVectors.RowBadClientId | src/parser.rs:169-172 | "withdrawal, foo, 1, 1.0" gives CsvInvalidClientId |
| ParserVectors.RowBadTxId | src/parser.rs:173-176 | "withdrawal, 1, foo, 1.0" gives CsvInvalidTxId |
| ParserVectors.LineRefused | src/parser.rs:29-47 | on a line of four bare cells, the first failing check, in the source's order, decides the error |

## Left out

- `src/main.rs` is not part of this model. It opens the file, reads lines, skips the header, logs and prints; it only feeds rows to the parser and transactions to the ledger.
- `ClientsDatabase::iter` (src/accounts.rs:181-183) is not modelled. Its order comes from a `HashMap` and is unspecified. The ghost `Snapshot` exposes the accounts as a map with no order.
- The `thiserror` messages of `src/error.rs` are not modelled; only the variant names are.
- The `atoi` crate's code is not part of this model. `Decimal.FromRadix10Checked` and `Decimal.Atoi` are definitions restricted to unsigned digit runs. `FromRadix10Checked` reads the leading run of digits and checks the value against the type's maximum. `Atoi` refuses an empty run and ignores the bytes after it.
- Decimal.Atoi: the optional leading sign of `atoi::atoi` is not modelled. The crate reads "+1" as 1 and "-0" as 0. The model finds no leading digit in either and gives None, so a client or transaction id written with a sign is refused as invalid.
- `memchr_iter` is modelled as the recursive `Parser.Split` over comma positions, not as a search.
- Rust's `{}` formatting of an integer is modelled as `Decimal.NatToDecimal`, a recursive definition that emits one digit per division by ten. The standard library's own code is not part of this model.
- `Amounts.Format` returns the bytes it writes. The `fmt::Error` a `Formatter` may report is not modelled.
- `Vec::insert` in `Account::process` is modelled by assigning the `deposits` sequence a new value that has the record inserted. The array shifting is not modelled.
- The accessors `Account::total`, `held` and `is_frozen` are plain reads (`Total`, `Held`, `IsFrozen`) with no contract of their own. `AvailableForWithdrawal` reads `AccountSpec.Available`, which carries the contract.
- Transaction ids are checked for duplicates only among deposits, as in the source. A withdrawal may reuse a deposit's id.
- The scenarios of the account tests are stated on the value model. `AccountScenarios.Trace` replays the transactions through `Step`, because a lemma cannot call `Account.Process`. The link to the class is `Account.Process`'s postcondition.
- The derived `Ord`, `Clone` and `Debug` of `Amount` and `Transaction` are not modelled; the core does not use them.
- ParserLemmas.RenderRoundTrip: the amount is written with the corrected formatter `FormatFixed`. The code's formatter would change amounts whose first fractional digit is zero (see Findings).

## Findings

| source | as written | input that shows it | evidently intended | confidence | as-written member | corrected member |
|---|---|---|---|---|---|---|
| src/amount.rs:13-21 | the remainder is printed as a plain integer after the `.`, so its leading zeros are lost | "1.05" parses to 10500, which is written as "1.5", which parses to 15000 | the remainder written to four places with its leading zeros, then trailing zeros stripped, so that every amount reads back as itself | not executed | AmountLemmas.FormatLosesLeadingZero | AmountLemmas.FormatFixedRoundTrip |
