/** What the ledger transitions of src/domain/account.rs guarantee. */
module AccountProps {
  import opened Wrappers
  import Transactions
  import opened AccountSpec
  import Sums

  /**
   * The condition of the debug assertions in `resolve` and `chargeback`: on a valid ledger the
   * held funds always cover a disputed deposit, so they never go negative.
   */
  lemma HeldCoversDisputed(l: Ledger, txId: Transactions.TxId)
    requires Valid(l) && txId in l.disputed
    ensures l.held >= l.disputed[txId]
  {
    Sums.SumValuesRemove(l.disputed, txId);
    Sums.SumValuesNonNegative(l.disputed - {txId});
  }

  /** A deposit keeps the invariant when its id is not under dispute (deposit ids are unique). */
  lemma DepositKeepsValid(l: Ledger, txId: Transactions.TxId, amount: Transactions.PositiveMoney)
    requires Valid(l) && txId !in l.disputed
    ensures Valid(After(l, Deposit(l, txId, amount)))
  {
  }

  lemma WithdrawKeepsValid(l: Ledger, amount: Transactions.Money)
    requires Valid(l)
    ensures Valid(After(l, Withdraw(l, amount)))
  {
  }

  lemma DisputeKeepsValid(l: Ledger, txId: Transactions.TxId)
    requires Valid(l)
    ensures Valid(After(l, Dispute(l, txId)))
  {
    var r := Dispute(l, txId);
    if r.Ok? {
      var amount := l.accepted[txId];
      Sums.SumValuesUpdate(l.disputed, txId, amount);
      var n := r.value;
      assert Sums.SumValues(n.disputed) == l.held + amount;
      assert forall t :: t in n.accepted ==> t !in n.disputed;
    }
  }

  lemma ResolveKeepsValid(l: Ledger, txId: Transactions.TxId)
    requires Valid(l)
    ensures Valid(After(l, Resolve(l, txId)))
  {
    var r := Resolve(l, txId);
    if r.Ok? {
      HeldCoversDisputed(l, txId);
      Sums.SumValuesRemove(l.disputed, txId);
      var n := r.value;
      assert Sums.SumValues(n.disputed) == n.held;
    }
  }

  lemma ChargebackKeepsValid(l: Ledger, txId: Transactions.TxId)
    requires Valid(l)
    ensures Valid(After(l, Chargeback(l, txId)))
  {
    var r := Chargeback(l, txId);
    if r.Ok? {
      HeldCoversDisputed(l, txId);
      Sums.SumValuesRemove(l.disputed, txId);
      var n := r.value;
      assert Sums.SumValues(n.disputed) == n.held;
    }
  }

  /**
   * Dispute followed by resolve is a round trip: the ledger comes back exactly as it was, so
   * the deposit is disputable again, and a second resolve without a new dispute fails.
   */
  lemma DisputeResolveRoundTrip(l: Ledger, txId: Transactions.TxId)
    requires txId !in l.disputed
    requires Dispute(l, txId).Ok?
    ensures Resolve(Dispute(l, txId).value, txId) == Ok(l)
    ensures Dispute(After(l, Resolve(Dispute(l, txId).value, txId)), txId).Ok?
    ensures Resolve(After(l, Resolve(Dispute(l, txId).value, txId)), txId) == Err(UndisputedTransaction)
  {
    var d := Dispute(l, txId).value;
    var amount := l.accepted[txId];
    assert d.disputed - {txId} == l.disputed;
    assert d.accepted[txId := amount] == l.accepted;
  }

  /** On a valid ledger the round trip needs only that the dispute succeeded. */
  lemma ValidDisputeResolveRoundTrip(l: Ledger, txId: Transactions.TxId)
    requires Valid(l) && Dispute(l, txId).Ok?
    ensures Resolve(Dispute(l, txId).value, txId) == Ok(l)
  {
    DisputeResolveRoundTrip(l, txId);
  }

  /** The recorded deposit ids grow only by the id of a deposit; the other operations move or drop ids. */
  lemma TrackedIds(l: Ledger, txId: Transactions.TxId, amount: Transactions.Money)
    ensures Tracked(After(l, Deposit(l, txId, amount))) <= Tracked(l) + {txId}
    ensures Tracked(After(l, Withdraw(l, amount))) <= Tracked(l)
    ensures Tracked(After(l, Dispute(l, txId))) <= Tracked(l)
    ensures Tracked(After(l, Resolve(l, txId))) <= Tracked(l)
    ensures Tracked(After(l, Chargeback(l, txId))) <= Tracked(l)
  {
  }
}
