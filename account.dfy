/**
 * `AccountState` of src/domain/account.rs: the per-client ledger as an object whose five
 * operations update its fields in place. Every method is proved to have exactly the
 * effect of the matching transition of AccountSpec on the object's `Snapshot()`.
 */
module Account {
  import opened Wrappers
  import Transactions
  import AccountSpec

  /** Rust's `Result<(), String>` with the reason kept as an AccountError. */
  function Status(r: Result<AccountSpec.Ledger, AccountSpec.AccountError>): Result<(), AccountSpec.AccountError> {
    if r.Ok? then Ok(()) else Err(r.error)
  }

  class AccountState {
    var acceptedDeposits: map<Transactions.TxId, Transactions.Money>
    var disputedDeposits: map<Transactions.TxId, Transactions.Money>
    var available: Transactions.Money
    var held: Transactions.Money
    var locked: bool

    /** The object's fields as a ledger value. */
    function Snapshot(): AccountSpec.Ledger
      reads this
    {
      AccountSpec.Ledger(acceptedDeposits, disputedDeposits, available, held, locked)
    }

    /** `AccountState::default()`. */
    constructor ()
      ensures Snapshot() == AccountSpec.Empty
    {
      acceptedDeposits, disputedDeposits := map[], map[];
      available, held, locked := 0, 0, false;
    }

    /** An object holding the state `ledger`: how the engine takes hold of an account in its map. */
    constructor FromLedger(ledger: AccountSpec.Ledger)
      ensures Snapshot() == ledger
    {
      acceptedDeposits, disputedDeposits := ledger.accepted, ledger.disputed;
      available, held, locked := ledger.available, ledger.held, ledger.locked;
    }

    method Deposit(deposit: Transactions.Deposit) returns (r: Result<(), AccountSpec.AccountError>)
      modifies this
      ensures r == Status(AccountSpec.Deposit(old(Snapshot()), deposit.txId, deposit.amount))
      ensures Snapshot() == AccountSpec.After(old(Snapshot()), AccountSpec.Deposit(old(Snapshot()), deposit.txId, deposit.amount))
    {
      r := EnsureNotLocked();
      if r.Err? {
        return;
      }
      available := available + deposit.amount;
      acceptedDeposits := acceptedDeposits[deposit.txId := deposit.amount];
      r := Ok(());
    }

    method Withdraw(amount: Transactions.Money) returns (r: Result<(), AccountSpec.AccountError>)
      modifies this
      ensures r == Status(AccountSpec.Withdraw(old(Snapshot()), amount))
      ensures Snapshot() == AccountSpec.After(old(Snapshot()), AccountSpec.Withdraw(old(Snapshot()), amount))
    {
      r := EnsureNotLocked();
      if r.Err? {
        return;
      }
      if available >= amount {
        available := available - amount;
        r := Ok(());
      } else {
        r := Err(AccountSpec.InsufficientFunds);
      }
    }

    method Dispute(disputedTx: Transactions.TxId) returns (r: Result<(), AccountSpec.AccountError>)
      modifies this
      ensures r == Status(AccountSpec.Dispute(old(Snapshot()), disputedTx))
      ensures Snapshot() == AccountSpec.After(old(Snapshot()), AccountSpec.Dispute(old(Snapshot()), disputedTx))
    {
      r := EnsureNotLocked();
      if r.Err? {
        return;
      }
      if disputedTx in acceptedDeposits {
        var depositAmount := acceptedDeposits[disputedTx];
        if available >= depositAmount {
          var disputedAmount := acceptedDeposits[disputedTx];
          acceptedDeposits := acceptedDeposits - {disputedTx};
          available := available - disputedAmount;
          held := held + disputedAmount;
          disputedDeposits := disputedDeposits[disputedTx := disputedAmount];
          r := Ok(());
        } else {
          r := Err(AccountSpec.FundsAlreadyWithdrawn);
        }
      } else {
        r := Err(AccountSpec.UnknownTransaction);
      }
    }

    method Resolve(resolvedTx: Transactions.TxId) returns (r: Result<(), AccountSpec.AccountError>)
      modifies this
      ensures r == Status(AccountSpec.Resolve(old(Snapshot()), resolvedTx))
      ensures Snapshot() == AccountSpec.After(old(Snapshot()), AccountSpec.Resolve(old(Snapshot()), resolvedTx))
    {
      r := EnsureNotLocked();
      if r.Err? {
        return;
      }
      if resolvedTx in disputedDeposits {
        var resolvedAmount := disputedDeposits[resolvedTx];
        disputedDeposits := disputedDeposits - {resolvedTx};
        held := held - resolvedAmount;
        available := available + resolvedAmount;
        acceptedDeposits := acceptedDeposits[resolvedTx := resolvedAmount];
        r := Ok(());
      } else {
        r := Err(AccountSpec.UndisputedTransaction);
      }
    }

    method Chargeback(revertedTx: Transactions.TxId) returns (r: Result<(), AccountSpec.AccountError>)
      modifies this
      ensures r == Status(AccountSpec.Chargeback(old(Snapshot()), revertedTx))
      ensures Snapshot() == AccountSpec.After(old(Snapshot()), AccountSpec.Chargeback(old(Snapshot()), revertedTx))
    {
      r := EnsureNotLocked();
      if r.Err? {
        return;
      }
      if revertedTx in disputedDeposits {
        var revertedAmount := disputedDeposits[revertedTx];
        disputedDeposits := disputedDeposits - {revertedTx};
        held := held - revertedAmount;
        locked := true;
        r := Ok(());
      } else {
        r := Err(AccountSpec.UndisputedTransaction);
      }
    }

    /** `ensure_not_locked`: the guard every operation runs first. */
    function EnsureNotLocked(): (r: Result<(), AccountSpec.AccountError>)
      reads this
      ensures r.Err? <==> locked
      ensures r.Err? ==> r.error == AccountSpec.LockedAccount
    {
      if locked then Err(AccountSpec.LockedAccount) else Ok(())
    }
  }
}
