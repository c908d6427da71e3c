/** The final account records (src/output/mod.rs). */
module Output {
  import opened Transactions
  import AccountSpec
  import opened Logic

  /** One output row: the account's balances, their total, and whether it is locked. */
  datatype AccountRecord = AccountRecord(client: ClientId, available: Money, held: Money, total: Money, locked: bool)

  /** `AccountRecord::new`: copies the balances and the lock, and totals the two balances. */
  function NewRecord(clientId: ClientId, account: AccountSpec.Ledger): (r: AccountRecord)
    ensures r.total == r.available + r.held
    ensures r.client == clientId && r.locked == account.locked
    ensures r.available == account.available && r.held == account.held
    ensures r.total == AccountSpec.Balance(account)
  {
    AccountRecord(clientId, account.available, account.held, account.available + account.held, account.locked)
  }

  /**
   * `to_account_records`: one record per map entry. The map's iteration order is unspecified,
   * so the records are a set.
   */
  function ToAccountRecords(accounts: Accounts): (records: set<AccountRecord>)
    ensures forall r :: r in records <==> r.client in accounts && r == NewRecord(r.client, accounts[r.client])
  {
    set c | c in accounts :: NewRecord(c, accounts[c])
  }

  /** The records name exactly the map's clients; no accounts give no records. */
  lemma RecordClients(accounts: Accounts)
    ensures (set r | r in ToAccountRecords(accounts) :: r.client) == accounts.Keys
    ensures accounts == map[] <==> ToAccountRecords(accounts) == {}
  {
    forall c | c in accounts
      ensures c in (set r | r in ToAccountRecords(accounts) :: r.client)
    {
      assert NewRecord(c, accounts[c]) in ToAccountRecords(accounts);
    }
    if accounts != map[] {
      var c :| c in accounts;
      assert NewRecord(c, accounts[c]) in ToAccountRecords(accounts);
    }
  }

  /** Exactly one record per map entry. */
  lemma {:induction false} RecordCount(accounts: Accounts)
    ensures |ToAccountRecords(accounts)| == |accounts|
    decreases |accounts|
  {
    if accounts != map[] {
      var c :| c in accounts;
      var rest := accounts - {c};
      RecordCount(rest);
      var r := NewRecord(c, accounts[c]);
      assert ToAccountRecords(accounts) == ToAccountRecords(rest) + {r};
      assert r !in ToAccountRecords(rest);
    }
  }
}
