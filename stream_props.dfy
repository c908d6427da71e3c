/** What a whole transaction stream preserves: money, the ledger invariant, and locks. */
module StreamProps {
  import opened Transactions
  import AccountSpec
  import opened Logic
  import LogicProps
  import opened Folds

  /** The money a stream brings in or takes out, step by step (see `LogicProps.Moved`). */
  function Flow(m: Accounts, txs: seq<Transaction>): int
    decreases |txs|
  {
    if txs == [] then 0
    else
      var prefix := txs[..|txs| - 1];
      Flow(m, prefix) + LogicProps.Moved(Apply(m, prefix), txs[|txs| - 1])
  }

  /**
   * Money conservation: the accounts together hold what they held before, plus the successful
   * deposits, minus the successful withdrawals and the amounts of successful chargebacks. From
   * no accounts, they hold exactly that difference.
   */
  lemma {:induction false} ApplyConserves(m: Accounts, txs: seq<Transaction>)
    ensures LogicProps.Total(Apply(m, txs)) == LogicProps.Total(m) + Flow(m, txs)
    ensures m == map[] ==> LogicProps.Total(Apply(m, txs)) == Flow(m, txs)
    decreases |txs|
  {
    if txs != [] {
      var prefix := txs[..|txs| - 1];
      ApplyConserves(m, prefix);
      LogicProps.HandleConserves(Apply(m, prefix), txs[|txs| - 1]);
    }
    if m == map[] {
      assert LogicProps.Balances(m) == map[];
    }
  }

  /** The ids of client `c`'s deposits in `txs`. */
  function DepositIds(txs: seq<Transaction>, c: ClientId): set<TxId>
    decreases |txs|
  {
    if txs == [] then {}
    else
      var tx := txs[|txs| - 1];
      DepositIds(txs[..|txs| - 1], c) + (if ClientOf(tx) == c then LogicProps.NewIds(tx) else {})
  }

  /** Every deposit's id is new among the earlier deposits of its client. */
  predicate UniqueDeposits(txs: seq<Transaction>)
    decreases |txs|
  {
    txs == [] ||
      var prefix, tx := txs[..|txs| - 1], txs[|txs| - 1];
      && UniqueDeposits(prefix)
      && (tx.DepositTx? ==> tx.deposit.txId !in DepositIds(prefix, ClientOf(tx)))
  }

  /**
   * With deposit ids unique per client, every account of the fold keeps the ledger invariant
   * (non-negative balances, `held` the sum of the disputed deposits), and records only ids of
   * its client's deposits.
   */
  lemma {:induction false} StreamKeepsValid(txs: seq<Transaction>)
    requires UniqueDeposits(txs)
    ensures LogicProps.AllValid(Apply(map[], txs))
    ensures forall c :: c in Apply(map[], txs) ==> AccountSpec.Tracked(Apply(map[], txs)[c]) <= DepositIds(txs, c)
    decreases |txs|
  {
    if txs != [] {
      var prefix, tx := txs[..|txs| - 1], txs[|txs| - 1];
      StreamKeepsValid(prefix);
      var m := Apply(map[], prefix);
      var c := ClientOf(tx);
      assert AccountSpec.Tracked(Get(m, c).GetOr(AccountSpec.Empty)) <= DepositIds(prefix, c);
      LogicProps.HandleKeepsValid(m, tx);
      LogicProps.HandleTracks(m, tx);
      forall k | k in Apply(map[], txs)
        ensures AccountSpec.Tracked(Apply(map[], txs)[k]) <= DepositIds(txs, k)
      {
        assert AccountSpec.Tracked(Get(m, k).GetOr(AccountSpec.Empty)) <= DepositIds(prefix, k);
      }
    }
  }

  /** A locked account stays as it is for the rest of the stream, and all its later transactions fail. */
  lemma {:induction false} LockedStays(m: Accounts, txs: seq<Transaction>, c: ClientId)
    requires c in m && m[c].locked
    ensures c in Apply(m, txs) && Apply(m, txs)[c] == m[c]
    ensures forall i :: 0 <= i < |ForClient(Trace(m, txs), c)| ==> ForClient(Trace(m, txs), c)[i].Failure?
    decreases |txs|
  {
    if txs != [] {
      var prefix, tx := txs[..|txs| - 1], txs[|txs| - 1];
      LockedStays(m, prefix, c);
      var before := Apply(m, prefix);
      assert txs == prefix + [tx];
      ApplySnoc(m, prefix, tx);
      ForClientSnoc(Trace(m, prefix), StepReport(before, tx), c);
      ReportAboutClient(before, tx);
      if ClientOf(tx) == c {
        LogicProps.LockedIsTerminal(before, tx);
      } else {
        LogicProps.HandleFrame(before, tx);
        assert Get(Apply(m, txs), c) == Get(before, c);
      }
    }
  }
}
