/**
 * The engine's error enum (src/error.rs). Only the variant names matter;
 * the human-readable messages are not modelled.
 */
module Errors {

  datatype Error =
    // Raised by the account ledger.
    | DepositOverflow
    | DuplicateTransactionId
    | WithdrawOverflow
    | TransactionNotFound
    | DuplicateDispute
    | ResolveNotDisputed
    | ChargebackNotDisputed
    | HeldOverflow
    | AccountFrozen
    | AccountNotFound
    // Raised by the CSV row parser.
    | CsvMissingColumn
    | CsvUnknownTransactionType
    | CsvInvalidClientId
    | CsvInvalidTxId
    | CsvInvalidAmount
    | CsvUnexpectedAmount
}
