/** What one step of src/engine/logic.rs guarantees about the map of accounts. */
module LogicProps {
  import opened Wrappers
  import opened Transactions
  import opened Errors
  import AccountSpec
  import AccountProps
  import Sums
  import opened Logic

  /** A step on an account that exists (or, for a deposit, is defaulted) commits the matching operation. */
  lemma HandleCommits(accounts: Accounts, tx: Transaction)
    requires ClientOf(tx) in accounts || tx.DepositTx?
    ensures
      var l := Get(accounts, ClientOf(tx)).GetOr(AccountSpec.Empty);
      Handle(accounts, tx) == Commit(accounts, ClientOf(tx), ErrorTxId(tx), l, Operation(l, tx))
  {
  }

  /** Each transaction reads and writes only its own client's entry; only a deposit adds a key. */
  lemma HandleFrame(accounts: Accounts, tx: Transaction)
    ensures forall k: ClientId :: k != ClientOf(tx) ==> Get(Handle(accounts, tx).accounts, k) == Get(accounts, k)
    ensures Handle(accounts, tx).accounts.Keys ==
      if tx.DepositTx? then accounts.Keys + {ClientOf(tx)} else accounts.Keys
  {
  }

  /** The zero account after its first deposit holds exactly that deposit, available. */
  lemma FirstDeposit(txId: TxId, amount: PositiveMoney)
    ensures AccountSpec.After(AccountSpec.Empty, AccountSpec.Deposit(AccountSpec.Empty, txId, amount)) ==
      AccountSpec.Ledger(map[txId := amount as int], map[], amount, 0, false)
    ensures AccountSpec.Deposit(AccountSpec.Empty, txId, amount).Ok?
  {
  }

  /**
   * A deposit always leaves its client present; for a client without an account it starts
   * from the zero account, so it succeeds and the new account holds just that deposit.
   */
  lemma DepositCreatesAccount(accounts: Accounts, d: Deposit)
    ensures d.clientId in Handle(accounts, DepositTx(d)).accounts
    ensures d.clientId !in accounts ==>
      && Handle(accounts, DepositTx(d)).result == Ok(())
      && Handle(accounts, DepositTx(d)).accounts[d.clientId] ==
         AccountSpec.Ledger(map[d.txId := d.amount as int], map[], d.amount, 0, false)
  {
    HandleCommits(accounts, DepositTx(d));
    if d.clientId !in accounts {
      FirstDeposit(d.txId, d.amount);
    }
  }

  /** Any other kind of transaction for a client without an account fails and creates nothing. */
  lemma UnknownClientRejected(accounts: Accounts, tx: Transaction)
    requires !tx.DepositTx? && ClientOf(tx) !in accounts
    ensures Handle(accounts, tx) == Handled(accounts, Err(Processing(ClientOf(tx), ErrorTxId(tx))))
  {
  }

  /**
   * Every failure is a Processing error carrying the transaction's client and its (for
   * dispute, resolve and chargeback: the referenced) transaction id, and leaves every
   * existing account as it was; a rejected deposit still leaves its client present.
   */
  lemma FailureIsProcessingError(accounts: Accounts, tx: Transaction)
    requires Handle(accounts, tx).result.Err?
    ensures Handle(accounts, tx).result.error == Processing(ClientOf(tx), ErrorTxId(tx))
    ensures forall k :: k in accounts ==> k in Handle(accounts, tx).accounts && Handle(accounts, tx).accounts[k] == accounts[k]
    ensures tx.DepositTx? ==> ClientOf(tx) in Handle(accounts, tx).accounts
  {
  }

  /** Dispatch: an existing (or, for a deposit, defaulted) account runs exactly the matching operation. */
  lemma HandleDispatch(accounts: Accounts, tx: Transaction)
    requires ClientOf(tx) in accounts || tx.DepositTx?
    ensures
      var l := Get(accounts, ClientOf(tx)).GetOr(AccountSpec.Empty);
      var h := Handle(accounts, tx);
      && ClientOf(tx) in h.accounts
      && h.accounts[ClientOf(tx)] == AccountSpec.After(l, Operation(l, tx))
      && (h.result.Ok? <==> Operation(l, tx).Ok?)
  {
  }

  /** The outcome of a step and the client's new entry depend on nothing but the client's old entry. */
  lemma HandleCongruence(a: Accounts, b: Accounts, tx: Transaction)
    requires Get(a, ClientOf(tx)) == Get(b, ClientOf(tx))
    ensures Get(Handle(a, tx).accounts, ClientOf(tx)) == Get(Handle(b, tx).accounts, ClientOf(tx))
    ensures Handle(a, tx).result == Handle(b, tx).result
  {
  }

  // ---------------------------------------------------------------------------
  // Money conservation

  /** Each client's `available + held`. */
  function Balances(accounts: Accounts): map<ClientId, int> {
    map c | c in accounts :: AccountSpec.Balance(accounts[c])
  }

  /** The money held by all accounts together. */
  ghost function Total(accounts: Accounts): int {
    Sums.SumValues(Balances(accounts))
  }

  /**
   * The money a step brings in or takes out: the amount of a successful deposit, minus that
   * of a successful withdrawal, minus the disputed amount a successful chargeback reverts.
   */
  function Moved(accounts: Accounts, tx: Transaction): int {
    if Handle(accounts, tx).result.Err? then 0
    else
      match tx
      case DepositTx(d) => d.amount as int
      case WithdrawalTx(w) => -(w.amount as int)
      case ChargebackTx(cb) =>
        if cb.clientId in accounts && cb.revertedTx in accounts[cb.clientId].disputed
        then -accounts[cb.clientId].disputed[cb.revertedTx] else 0
      case _ => 0
  }

  lemma TotalUpdate(accounts: Accounts, c: ClientId, l: AccountSpec.Ledger)
    ensures Total(accounts[c := l]) ==
      Total(accounts) - (if c in accounts then AccountSpec.Balance(accounts[c]) else 0) + AccountSpec.Balance(l)
  {
    assert Balances(accounts[c := l]) == Balances(accounts)[c := AccountSpec.Balance(l)];
    Sums.SumValuesUpdate(Balances(accounts), c, AccountSpec.Balance(l));
  }

  /** One step changes the total by exactly the money it moves; disputes and resolves move none. */
  lemma HandleConserves(accounts: Accounts, tx: Transaction)
    ensures Total(Handle(accounts, tx).accounts) == Total(accounts) + Moved(accounts, tx)
  {
    var c := ClientOf(tx);
    if c in accounts || tx.DepositTx? {
      var l := Get(accounts, c).GetOr(AccountSpec.Empty);
      var r := Operation(l, tx);
      HandleCommits(accounts, tx);
      TotalUpdate(accounts, c, AccountSpec.After(l, r));
      OperationMoves(accounts, tx);
    }
  }

  /** The account a step commits holds its old balance plus the money the step moves. */
  lemma OperationMoves(accounts: Accounts, tx: Transaction)
    requires ClientOf(tx) in accounts || tx.DepositTx?
    ensures
      var l := Get(accounts, ClientOf(tx)).GetOr(AccountSpec.Empty);
      AccountSpec.Balance(AccountSpec.After(l, Operation(l, tx))) == AccountSpec.Balance(l) + Moved(accounts, tx)
  {
    var l := Get(accounts, ClientOf(tx)).GetOr(AccountSpec.Empty);
    var r := Operation(l, tx);
    HandleCommits(accounts, tx);
    assert Handle(accounts, tx).result.Err? <==> r.Err?;
    if r.Ok? {
      match tx
      case DepositTx(d) => assert AccountSpec.Balance(r.value) == AccountSpec.Balance(l) + d.amount;
      case WithdrawalTx(w) =>
      case DisputeTx(d) =>
      case ResolveTx(res) =>
      case ChargebackTx(cb) => assert l == accounts[cb.clientId];
    }
  }

  // ---------------------------------------------------------------------------
  // The ledger invariant over the whole map

  ghost predicate AllValid(accounts: Accounts) {
    forall c :: c in accounts ==> AccountSpec.Valid(accounts[c])
  }

  /** The deposit id a transaction may add to its account's records. */
  function NewIds(tx: Transaction): set<TxId> {
    if tx.DepositTx? then {tx.deposit.txId} else {}
  }

  /**
   * A step keeps every account valid, provided a deposit's id is not already under dispute
   * on its account (which unique deposit ids ensure).
   */
  lemma HandleKeepsValid(accounts: Accounts, tx: Transaction)
    requires AllValid(accounts)
    requires tx.DepositTx? ==> tx.deposit.txId !in Get(accounts, ClientOf(tx)).GetOr(AccountSpec.Empty).disputed
    ensures AllValid(Handle(accounts, tx).accounts)
  {
    var c := ClientOf(tx);
    if c in accounts || tx.DepositTx? {
      var l := Get(accounts, c).GetOr(AccountSpec.Empty);
      assert AccountSpec.Valid(l);
      match tx
      case DepositTx(d) => AccountProps.DepositKeepsValid(l, d.txId, d.amount);
      case WithdrawalTx(w) => AccountProps.WithdrawKeepsValid(l, w.amount);
      case DisputeTx(d) => AccountProps.DisputeKeepsValid(l, d.disputedTx);
      case ResolveTx(r) => AccountProps.ResolveKeepsValid(l, r.resolvedTx);
      case ChargebackTx(cb) => AccountProps.ChargebackKeepsValid(l, cb.revertedTx);
    }
  }

  /** A step adds to the records of its own client at most a deposit's own id, and to no other client's. */
  lemma HandleTracks(accounts: Accounts, tx: Transaction)
    ensures forall k :: k in Handle(accounts, tx).accounts ==>
      AccountSpec.Tracked(Handle(accounts, tx).accounts[k]) <=
        AccountSpec.Tracked(Get(accounts, k).GetOr(AccountSpec.Empty)) + (if k == ClientOf(tx) then NewIds(tx) else {})
  {
    var c := ClientOf(tx);
    if c in accounts || tx.DepositTx? {
      var l := Get(accounts, c).GetOr(AccountSpec.Empty);
      HandleCommits(accounts, tx);
      match tx
      case DepositTx(d) => AccountProps.TrackedIds(l, d.txId, d.amount);
      case WithdrawalTx(w) => AccountProps.TrackedIds(l, 0, w.amount);
      case DisputeTx(d) => AccountProps.TrackedIds(l, d.disputedTx, 0);
      case ResolveTx(r) => AccountProps.TrackedIds(l, r.resolvedTx, 0);
      case ChargebackTx(cb) => AccountProps.TrackedIds(l, cb.revertedTx, 0);
    }
  }

  /** A locked account is terminal: no transaction changes it, and every one for its client fails. */
  lemma LockedIsTerminal(accounts: Accounts, tx: Transaction)
    requires ClientOf(tx) in accounts && accounts[ClientOf(tx)].locked
    ensures Handle(accounts, tx).accounts == accounts
    ensures Handle(accounts, tx).result.Err?
  {
    HandleCommits(accounts, tx);
  }
}
