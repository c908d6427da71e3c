/**
 * The per-client ledger of src/domain/account.rs as a value, with its five operations as
 * transitions. Each transition yields the new ledger on success and the reason on failure;
 * a failed operation leaves the ledger as it was (`After`).
 */
module AccountSpec {
  import opened Wrappers
  import opened Transactions
  import Sums

  /** The distinct failures of the account operations (their messages are not modelled). */
  datatype AccountError =
    | LockedAccount
    | InsufficientFunds
    | UnknownTransaction
    | FundsAlreadyWithdrawn
    | UndisputedTransaction

  /**
   * `accepted` holds the deposits that may still be disputed, `disputed` those under dispute;
   * `available` may be withdrawn, `held` is frozen by disputes, `locked` follows a chargeback.
   */
  datatype Ledger = Ledger(
    accepted: map<TxId, Money>,
    disputed: map<TxId, Money>,
    available: Money,
    held: Money,
    locked: bool)

  /** `AccountState::default()`: zero balances, unlocked, no deposits recorded. */
  const Empty := Ledger(map[], map[], 0, 0, false)

  /** The money the account holds in all: what the output calls `total`. */
  function Balance(l: Ledger): Money {
    l.available + l.held
  }

  /** The ledger after an operation: the new one when it succeeded, the old one when it failed. */
  function After(l: Ledger, r: Result<Ledger, AccountError>): Ledger {
    if r.Ok? then r.value else l
  }

  /** A failure is LockedAccount exactly when the account is locked. */
  ghost predicate LockFirst(l: Ledger, r: Result<Ledger, AccountError>) {
    l.locked <==> r == Err(LockedAccount)
  }

  /** `deposit`: succeeds on every unlocked account, crediting `available` and recording the deposit. */
  function Deposit(l: Ledger, txId: TxId, amount: Money): (r: Result<Ledger, AccountError>)
    ensures r.Ok? <==> !l.locked
    ensures LockFirst(l, r)
    ensures r.Ok? ==> r.value.available == l.available + amount && r.value.accepted == l.accepted[txId := amount]
    ensures r.Ok? ==> r.value.held == l.held && r.value.disputed == l.disputed && !r.value.locked
  {
    if l.locked then Err(LockedAccount)
    else Ok(l.(available := l.available + amount, accepted := l.accepted[txId := amount]))
  }

  /** `withdraw`: succeeds iff the account is unlocked and `amount` does not exceed `available`. */
  function Withdraw(l: Ledger, amount: Money): (r: Result<Ledger, AccountError>)
    ensures r.Ok? <==> !l.locked && amount <= l.available
    ensures LockFirst(l, r)
    ensures !l.locked && amount > l.available ==> r == Err(InsufficientFunds)
    ensures r.Ok? ==> r.value.available == l.available - amount
    ensures r.Ok? ==> r.value.held == l.held && r.value.locked == l.locked
    ensures r.Ok? ==> r.value.accepted == l.accepted && r.value.disputed == l.disputed
    ensures r.Ok? ==> Balance(r.value) == Balance(l) - amount
  {
    if l.locked then Err(LockedAccount)
    else if l.available >= amount then Ok(l.(available := l.available - amount))
    else Err(InsufficientFunds)
  }

  /**
   * `dispute`: succeeds iff the account is unlocked, the deposit is accepted and its amount is
   * still available; it then freezes that amount and moves the deposit to `disputed`.
   */
  function Dispute(l: Ledger, txId: TxId): (r: Result<Ledger, AccountError>)
    ensures r.Ok? <==> !l.locked && txId in l.accepted && l.available >= l.accepted[txId]
    ensures LockFirst(l, r)
    ensures !l.locked && txId !in l.accepted ==> r == Err(UnknownTransaction)
    ensures !l.locked && txId in l.accepted && l.available < l.accepted[txId] ==> r == Err(FundsAlreadyWithdrawn)
    ensures r.Ok? ==>
      var amount := l.accepted[txId];
      r.value.available == l.available - amount && r.value.held == l.held + amount &&
      r.value.accepted == l.accepted - {txId} && r.value.disputed == l.disputed[txId := amount] &&
      !r.value.locked
    ensures r.Ok? ==> Balance(r.value) == Balance(l)
  {
    if l.locked then Err(LockedAccount)
    else if txId !in l.accepted then Err(UnknownTransaction)
    else
      var amount := l.accepted[txId];
      if l.available >= amount then
        Ok(l.(accepted := l.accepted - {txId},
              available := l.available - amount,
              held := l.held + amount,
              disputed := l.disputed[txId := amount]))
      else Err(FundsAlreadyWithdrawn)
  }

  /**
   * `resolve`: succeeds iff the account is unlocked and the deposit is under dispute; it then
   * releases the frozen amount and makes the deposit disputable again.
   */
  function Resolve(l: Ledger, txId: TxId): (r: Result<Ledger, AccountError>)
    ensures r.Ok? <==> !l.locked && txId in l.disputed
    ensures LockFirst(l, r)
    ensures !l.locked && txId !in l.disputed ==> r == Err(UndisputedTransaction)
    ensures r.Ok? ==>
      var amount := l.disputed[txId];
      r.value.available == l.available + amount && r.value.held == l.held - amount &&
      r.value.accepted == l.accepted[txId := amount] && r.value.disputed == l.disputed - {txId} &&
      !r.value.locked
    ensures r.Ok? ==> Balance(r.value) == Balance(l)
  {
    if l.locked then Err(LockedAccount)
    else if txId in l.disputed then
      var amount := l.disputed[txId];
      Ok(l.(disputed := l.disputed - {txId},
            held := l.held - amount,
            available := l.available + amount,
            accepted := l.accepted[txId := amount]))
    else Err(UndisputedTransaction)
  }

  /**
   * `chargeback`: succeeds iff the account is unlocked and the deposit is under dispute; it then
   * drops the frozen amount for good, forgets the deposit and locks the account.
   */
  function Chargeback(l: Ledger, txId: TxId): (r: Result<Ledger, AccountError>)
    ensures r.Ok? <==> !l.locked && txId in l.disputed
    ensures LockFirst(l, r)
    ensures !l.locked && txId !in l.disputed ==> r == Err(UndisputedTransaction)
    ensures r.Ok? ==>
      var amount := l.disputed[txId];
      r.value.available == l.available && r.value.held == l.held - amount &&
      r.value.accepted == l.accepted && r.value.disputed == l.disputed - {txId} &&
      r.value.locked
    ensures r.Ok? ==> Balance(r.value) == Balance(l) - l.disputed[txId]
  {
    if l.locked then Err(LockedAccount)
    else if txId in l.disputed then
      var amount := l.disputed[txId];
      Ok(l.(disputed := l.disputed - {txId},
            held := l.held - amount,
            locked := true))
    else Err(UndisputedTransaction)
  }

  /**
   * The ledger invariant: balances are non-negative, `held` is exactly the sum of the
   * disputed deposits, every recorded amount is positive, and no deposit is both
   * accepted and disputed.
   */
  ghost predicate Valid(l: Ledger) {
    && l.available >= 0
    && l.held >= 0
    && l.held == Sums.SumValues(l.disputed)
    && (forall t :: t in l.accepted ==> l.accepted[t] > 0)
    && (forall t :: t in l.disputed ==> l.disputed[t] > 0)
    && (forall t :: t in l.accepted ==> t !in l.disputed)
  }

  /** The deposit ids the ledger records, accepted or disputed. */
  function Tracked(l: Ledger): set<TxId> {
    l.accepted.Keys + l.disputed.Keys
  }
}
