/**
 * The orders handed to the engine (src/domain/transaction.rs): a closed five-way union.
 * Deposits and withdrawals are built by validating constructors; the other three
 * kinds only reference an earlier transaction and are built by their datatype
 * constructors, which always succeed, with the destructors as accessors.
 */
module Transactions {
  import opened Wrappers

  /** A client id: Rust's u16. */
  type ClientId = x: int | 0 <= x < 0x1_0000
  /** A transaction id: Rust's u32. */
  type TxId = x: int | 0 <= x < 0x1_0000_0000
  /** An exact fixed-point decimal amount, counted in its smallest unit. */
  type Money = int
  /** The amounts a validated deposit or withdrawal can carry. */
  type PositiveMoney = x: Money | x > 0 witness 1

  /** Why a deposit or a withdrawal could not be built. */
  datatype ConstructionError = NonPositiveAmount

  datatype Withdrawal = Withdrawal(clientId: ClientId, txId: TxId, amount: PositiveMoney)
  datatype Deposit = Deposit(clientId: ClientId, txId: TxId, amount: PositiveMoney)
  datatype Dispute = Dispute(clientId: ClientId, disputedTx: TxId)
  datatype Resolve = Resolve(clientId: ClientId, resolvedTx: TxId)
  datatype Chargeback = Chargeback(clientId: ClientId, revertedTx: TxId)

  datatype Transaction =
    | DepositTx(deposit: Deposit)
    | WithdrawalTx(withdrawal: Withdrawal)
    | DisputeTx(dispute: Dispute)
    | ResolveTx(resolve: Resolve)
    | ChargebackTx(chargeback: Chargeback)

  /** `Withdrawal::new`: refuses a non-positive amount, otherwise keeps its arguments. */
  function NewWithdrawal(clientId: ClientId, txId: TxId, amount: Money): (r: Result<Withdrawal, ConstructionError>)
    ensures r.Err? <==> amount <= 0
    ensures r.Ok? ==> r.value.clientId == clientId && r.value.txId == txId && r.value.amount == amount
    ensures r.Ok? ==> r.value.amount > 0
  {
    if amount <= 0 then Err(NonPositiveAmount) else Ok(Withdrawal(clientId, txId, amount))
  }

  /** `Deposit::new`: refuses a non-positive amount, otherwise keeps its arguments. */
  function NewDeposit(clientId: ClientId, txId: TxId, amount: Money): (r: Result<Deposit, ConstructionError>)
    ensures r.Err? <==> amount <= 0
    ensures r.Ok? ==> r.value.clientId == clientId && r.value.txId == txId && r.value.amount == amount
    ensures r.Ok? ==> r.value.amount > 0
  {
    if amount <= 0 then Err(NonPositiveAmount) else Ok(Deposit(clientId, txId, amount))
  }

  /** `Transaction::client_id`: the client the transaction belongs to. */
  function ClientOf(tx: Transaction): ClientId {
    match tx
    case DepositTx(d) => d.clientId
    case WithdrawalTx(w) => w.clientId
    case DisputeTx(d) => d.clientId
    case ResolveTx(r) => r.clientId
    case ChargebackTx(c) => c.clientId
  }

  /**
   * The transaction id a processing failure of `tx` carries: its own id for a deposit
   * or a withdrawal, the referenced deposit's id for a dispute, resolve or chargeback.
   */
  function ErrorTxId(tx: Transaction): TxId {
    match tx
    case DepositTx(d) => d.txId
    case WithdrawalTx(w) => w.txId
    case DisputeTx(d) => d.disputedTx
    case ResolveTx(r) => r.resolvedTx
    case ChargebackTx(c) => c.revertedTx
  }
}
