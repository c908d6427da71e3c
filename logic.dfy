/**
 * Processing one transaction against the map of accounts (src/engine/logic.rs).
 * `Handle` is the meaning of a step on map values; the handler methods work as the
 * source does, taking the client's account out of the map as an AccountState, calling
 * the matching operation on it, and writing the result back.
 */
module Logic {
  import opened Wrappers
  import opened Transactions
  import opened Errors
  import AccountSpec
  import Account

  /** The engine's `Accounts`: the map owns each client's account state. */
  type Accounts = map<ClientId, AccountSpec.Ledger>

  /** The entry of `c`, if the client has an account. */
  function Get(accounts: Accounts, c: ClientId): Option<AccountSpec.Ledger> {
    if c in accounts then Some(accounts[c]) else None
  }

  /** The accounts after a step, and what `handle_transaction` returned. */
  datatype Handled = Handled(accounts: Accounts, result: Result<(), Error>)

  /** The account operation a transaction kind stands for (the variant `match` of `handle_transaction`). */
  function Operation(l: AccountSpec.Ledger, tx: Transaction): (r: Result<AccountSpec.Ledger, AccountSpec.AccountError>)
    ensures AccountSpec.LockFirst(l, r)
    ensures r.Ok? ==> !r.value.locked || tx.ChargebackTx?
  {
    match tx
    case DepositTx(d) => AccountSpec.Deposit(l, d.txId, d.amount)
    case WithdrawalTx(w) => AccountSpec.Withdraw(l, w.amount)
    case DisputeTx(d) => AccountSpec.Dispute(l, d.disputedTx)
    case ResolveTx(r) => AccountSpec.Resolve(l, r.resolvedTx)
    case ChargebackTx(c) => AccountSpec.Chargeback(l, c.revertedTx)
  }

  /**
   * Writing back the account `l` of client `c` after an operation with outcome `r`; a failure
   * becomes a Processing error naming `c` and the transaction id `txId` (`map_err`).
   */
  function Commit(accounts: Accounts, c: ClientId, txId: TxId, l: AccountSpec.Ledger,
                  r: Result<AccountSpec.Ledger, AccountSpec.AccountError>): (h: Handled)
    ensures h.accounts.Keys == accounts.Keys + {c}
    ensures h.accounts[c] == if r.Ok? then r.value else l
    ensures forall k :: k in accounts && k != c ==> h.accounts[k] == accounts[k]
    ensures h.result.Ok? <==> r.Ok?
    ensures h.result.Err? ==> h.result.error == Processing(c, txId)
  {
    Handled(accounts[c := AccountSpec.After(l, r)], if r.Ok? then Ok(()) else Err(Processing(c, txId)))
  }

  /**
   * One step of the engine: a deposit finds or creates its client's account, every other
   * kind needs an existing one; the matching operation then runs on that account.
   */
  function Handle(accounts: Accounts, tx: Transaction): (h: Handled)
    ensures h.accounts.Keys == if tx.DepositTx? then accounts.Keys + {ClientOf(tx)} else accounts.Keys
    ensures h.result.Err? ==> h.result.error == Processing(ClientOf(tx), ErrorTxId(tx))
  {
    match tx
    case DepositTx(d) =>
      var l := Get(accounts, d.clientId).GetOr(AccountSpec.Empty);
      Commit(accounts, d.clientId, d.txId, l, AccountSpec.Deposit(l, d.txId, d.amount))
    case WithdrawalTx(w) =>
      if w.clientId !in accounts then Handled(accounts, Err(Processing(w.clientId, w.txId)))
      else Commit(accounts, w.clientId, w.txId, accounts[w.clientId], AccountSpec.Withdraw(accounts[w.clientId], w.amount))
    case DisputeTx(d) =>
      if d.clientId !in accounts then Handled(accounts, Err(Processing(d.clientId, d.disputedTx)))
      else Commit(accounts, d.clientId, d.disputedTx, accounts[d.clientId], AccountSpec.Dispute(accounts[d.clientId], d.disputedTx))
    case ResolveTx(r) =>
      if r.clientId !in accounts then Handled(accounts, Err(Processing(r.clientId, r.resolvedTx)))
      else Commit(accounts, r.clientId, r.resolvedTx, accounts[r.clientId], AccountSpec.Resolve(accounts[r.clientId], r.resolvedTx))
    case ChargebackTx(cb) =>
      if cb.clientId !in accounts then Handled(accounts, Err(Processing(cb.clientId, cb.revertedTx)))
      else Commit(accounts, cb.clientId, cb.revertedTx, accounts[cb.clientId], AccountSpec.Chargeback(accounts[cb.clientId], cb.revertedTx))
  }

  /** `ensure_client_is_known`: the client's account, or a Processing error when it has none. */
  function EnsureClientIsKnown(clientId: ClientId, txId: TxId, accounts: Accounts): (r: Result<AccountSpec.Ledger, Error>)
    ensures r.Ok? <==> clientId in accounts
    ensures r.Ok? ==> r.value == accounts[clientId]
    ensures r.Err? ==> r.error == Processing(clientId, txId)
  {
    if clientId in accounts then Ok(accounts[clientId]) else Err(Processing(clientId, txId))
  }

  /** `handle_transaction`: dispatches on the transaction kind. */
  method HandleTransaction(tx: Transaction, accounts: Accounts) returns (updated: Accounts, r: Result<(), Error>)
    ensures Handled(updated, r) == Handle(accounts, tx)
  {
    match tx
    case DepositTx(d) => updated, r := HandleDeposit(d, accounts);
    case WithdrawalTx(w) => updated, r := HandleWithdrawal(w, accounts);
    case DisputeTx(d) => updated, r := HandleDispute(d, accounts);
    case ResolveTx(res) => updated, r := HandleResolve(res, accounts);
    case ChargebackTx(c) => updated, r := HandleChargeback(c, accounts);
  }

  /** `handle_deposit`: `entry(client).or_default()`, then `deposit`. */
  method HandleDeposit(deposit: Deposit, accounts: Accounts) returns (updated: Accounts, r: Result<(), Error>)
    ensures Handled(updated, r) == Handle(accounts, DepositTx(deposit))
  {
    var clientId := deposit.clientId;
    var txId := deposit.txId;
    // `entry(client_id).or_default()`
    var account;
    if clientId in accounts {
      account := new Account.AccountState.FromLedger(accounts[clientId]);
    } else {
      account := new Account.AccountState();
    }
    var outcome := account.Deposit(deposit);
    updated := accounts[clientId := account.Snapshot()];
    r := if outcome.Ok? then Ok(()) else Err(Processing(clientId, txId));
  }

  /** `handle_withdrawal`: needs an existing account, then `withdraw`. */
  method HandleWithdrawal(withdrawal: Withdrawal, accounts: Accounts) returns (updated: Accounts, r: Result<(), Error>)
    ensures Handled(updated, r) == Handle(accounts, WithdrawalTx(withdrawal))
  {
    var clientId := withdrawal.clientId;
    var txId := withdrawal.txId;
    if clientId !in accounts {
      return accounts, Err(Processing(clientId, txId));
    }
    var account := new Account.AccountState.FromLedger(accounts[clientId]);
    var outcome := account.Withdraw(withdrawal.amount);
    updated := accounts[clientId := account.Snapshot()];
    r := if outcome.Ok? then Ok(()) else Err(Processing(clientId, txId));
  }

  /** `handle_dispute`: `ensure_client_is_known`, then `dispute`; failures name the disputed deposit. */
  method HandleDispute(dispute: Dispute, accounts: Accounts) returns (updated: Accounts, r: Result<(), Error>)
    ensures Handled(updated, r) == Handle(accounts, DisputeTx(dispute))
  {
    var clientId := dispute.clientId;
    var disputedTx := dispute.disputedTx;
    var known := EnsureClientIsKnown(clientId, disputedTx, accounts);
    if known.Err? {
      return accounts, Err(known.error);
    }
    var account := new Account.AccountState.FromLedger(known.value);
    var outcome := account.Dispute(disputedTx);
    updated := accounts[clientId := account.Snapshot()];
    r := if outcome.Ok? then Ok(()) else Err(Processing(clientId, disputedTx));
  }

  /** `handle_resolve`: `ensure_client_is_known`, then `resolve`; failures name the resolved deposit. */
  method HandleResolve(resolve: Resolve, accounts: Accounts) returns (updated: Accounts, r: Result<(), Error>)
    ensures Handled(updated, r) == Handle(accounts, ResolveTx(resolve))
  {
    var clientId := resolve.clientId;
    var resolvedTx := resolve.resolvedTx;
    var known := EnsureClientIsKnown(clientId, resolvedTx, accounts);
    if known.Err? {
      return accounts, Err(known.error);
    }
    var account := new Account.AccountState.FromLedger(known.value);
    var outcome := account.Resolve(resolvedTx);
    updated := accounts[clientId := account.Snapshot()];
    r := if outcome.Ok? then Ok(()) else Err(Processing(clientId, resolvedTx));
  }

  /** `handle_chargeback`: `ensure_client_is_known`, then `chargeback`; failures name the reverted deposit. */
  method HandleChargeback(chargeback: Chargeback, accounts: Accounts) returns (updated: Accounts, r: Result<(), Error>)
    ensures Handled(updated, r) == Handle(accounts, ChargebackTx(chargeback))
  {
    var clientId := chargeback.clientId;
    var revertedTx := chargeback.revertedTx;
    var known := EnsureClientIsKnown(clientId, revertedTx, accounts);
    if known.Err? {
      return accounts, Err(known.error);
    }
    var account := new Account.AccountState.FromLedger(known.value);
    var outcome := account.Chargeback(revertedTx);
    updated := accounts[clientId := account.Snapshot()];
    r := if outcome.Ok? then Ok(()) else Err(Processing(clientId, revertedTx));
  }
}
