/**
 * The errors reported to the caller (src/error.rs). Only the variant, the client id
 * and the transaction id are kept; the message text is not modelled.
 */
module Errors {
  import opened Transactions

  datatype Error =
    /** Well-formed input that violates a domain rule, found while parsing. */
    | Validation(clientId: ClientId, txId: TxId)
    /** Valid input that is inconsistent with the current account state. */
    | Processing(clientId: ClientId, txId: TxId)
}
