/**
 * The meaning of the engines of src/engine/orchestration.rs as folds over a transaction
 * stream, and the facts that make the sharded engine agree with the sequential one.
 * Every fold is defined from the back (the last element is handled last), the way the
 * engines' loops extend their state.
 */
module Folds {
  import opened Wrappers
  import opened Transactions
  import opened Errors
  import opened Logic
  import LogicProps

  /** One callback: `on_success` with the transaction's record, or `on_error` with an error. */
  datatype Report = Success(record: Transaction) | Failure(error: Error)

  /** What handling `tx` against `m` reports: its record when it succeeded, its error otherwise. */
  function StepReport(m: Accounts, tx: Transaction): Report {
    var h := Handle(m, tx);
    if h.result.Ok? then Success(tx) else Failure(h.result.error)
  }

  /** The client a callback is about. */
  function ReportClient(r: Report): ClientId {
    match r
    case Success(tx) => ClientOf(tx)
    case Failure(e) => e.clientId
  }

  /** Folding `handle_transaction` over `txs`, starting from `m`. */
  function Apply(m: Accounts, txs: seq<Transaction>): (r: Accounts)
    ensures m.Keys <= r.Keys
    decreases |txs|
  {
    if txs == [] then m
    else Handle(Apply(m, txs[..|txs| - 1]), txs[|txs| - 1]).accounts
  }

  /** The reports of that fold, one per transaction, in order. */
  function Trace(m: Accounts, txs: seq<Transaction>): (r: seq<Report>)
    ensures |r| == |txs|
    decreases |txs|
  {
    if txs == [] then []
    else
      var prefix := txs[..|txs| - 1];
      var tx := txs[|txs| - 1];
      Trace(m, prefix) + [StepReport(Apply(m, prefix), tx)]
  }

  /** The transactions of the input items that parsed, in order. */
  function Oks(items: seq<Result<Transaction, Error>>): seq<Transaction>
    decreases |items|
  {
    if items == [] then []
    else
      var item := items[|items| - 1];
      Oks(items[..|items| - 1]) + (if item.Ok? then [item.value] else [])
  }

  /** The errors of the input items that did not parse, in order. */
  function Errs(items: seq<Result<Transaction, Error>>): seq<Error>
    decreases |items|
  {
    if items == [] then []
    else
      var item := items[|items| - 1];
      Errs(items[..|items| - 1]) + (if item.Err? then [item.error] else [])
  }

  /**
   * The callbacks of `process_transactions`: a parse error is reported as it is, every
   * parsed transaction is handled against the accounts built from the earlier ones.
   */
  function Callbacks(items: seq<Result<Transaction, Error>>): (r: seq<Report>)
    ensures |r| == |items|
    decreases |items|
  {
    if items == [] then []
    else
      var prefix := items[..|items| - 1];
      var item := items[|items| - 1];
      Callbacks(prefix) + [CallbackOf(prefix, item)]
  }

  /** The callback of `item` after the items `prefix`. */
  function CallbackOf(prefix: seq<Result<Transaction, Error>>, item: Result<Transaction, Error>): Report {
    if item.Err? then Failure(item.error) else StepReport(Apply(map[], Oks(prefix)), item.value)
  }

  /** The parse errors as `on_error` callbacks. */
  function Failures(errors: seq<Error>): seq<Report>
    decreases |errors|
  {
    if errors == [] then []
    else Failures(errors[..|errors| - 1]) + [Failure(errors[|errors| - 1])]
  }

  /** The transactions of client `c`, in order. */
  function OfClient(txs: seq<Transaction>, c: ClientId): seq<Transaction>
    decreases |txs|
  {
    if txs == [] then []
    else
      var tx := txs[|txs| - 1];
      OfClient(txs[..|txs| - 1], c) + (if ClientOf(tx) == c then [tx] else [])
  }

  /** The callbacks about client `c`, in order. */
  function ForClient(reports: seq<Report>, c: ClientId): seq<Report>
    decreases |reports|
  {
    if reports == [] then []
    else
      var r := reports[|reports| - 1];
      ForClient(reports[..|reports| - 1], c) + (if ReportClient(r) == c then [r] else [])
  }

  /** The worker a client is routed to: `client as usize % num_workers`. */
  function LaneOf(c: ClientId, numWorkers: nat): (w: nat)
    requires numWorkers > 0
    ensures w < numWorkers
  {
    c % numWorkers
  }

  /** The sub-stream sent to worker `w`, in the original order. */
  function LaneItems(txs: seq<Transaction>, numWorkers: nat, w: nat): (lane: seq<Transaction>)
    requires numWorkers > 0
    ensures |lane| <= |txs|
    ensures forall i :: 0 <= i < |lane| ==> LaneOf(ClientOf(lane[i]), numWorkers) == w
    decreases |txs|
  {
    if txs == [] then []
    else
      var tx := txs[|txs| - 1];
      LaneItems(txs[..|txs| - 1], numWorkers, w) + (if LaneOf(ClientOf(tx), numWorkers) == w then [tx] else [])
  }

  /** `extend` of the partitions in order: a later partition's entry replaces an earlier one's. */
  function Merge(parts: seq<Accounts>): (all: Accounts)
    ensures forall i :: 0 <= i < |parts| ==> parts[i].Keys <= all.Keys
    ensures |parts| > 0 ==> forall k :: k in parts[|parts| - 1] ==> all[k] == parts[|parts| - 1][k]
    decreases |parts|
  {
    if parts == [] then map[]
    else
      var n := |parts| - 1;
      assert forall i :: 0 <= i < n ==> parts[..n][i] == parts[i];
      Merge(parts[..n]) + parts[n]
  }

  // ---------------------------------------------------------------------------
  // The sequential engine

  /**
   * A parse error calls `on_error` with it; a parsed transaction calls `on_success` with its
   * record iff handling it against the accounts built from the earlier items succeeds, and
   * `on_error` with the step's error otherwise.
   */
  lemma {:induction false} CallbacksAt(items: seq<Result<Transaction, Error>>)
    ensures |Callbacks(items)| == |items|
    ensures forall i :: 0 <= i < |items| ==> Callbacks(items)[i] == CallbackOf(items[..i], items[i])
    ensures forall i :: 0 <= i < |items| && items[i].Err? ==> Callbacks(items)[i] == Failure(items[i].error)
    ensures forall i :: 0 <= i < |items| && items[i].Ok? ==>
      (Callbacks(items)[i] == Success(items[i].value) <==>
       Handle(Apply(map[], Oks(items[..i])), items[i].value).result.Ok?)
    decreases |items|
  {
    if items != [] {
      var prefix := items[..|items| - 1];
      CallbacksAt(prefix);
      var cbs := Callbacks(items);
      assert cbs == Callbacks(prefix) + [CallbackOf(prefix, items[|items| - 1])];
      forall i | 0 <= i < |prefix|
        ensures items[i] == prefix[i] && items[..i] == prefix[..i] && cbs[i] == Callbacks(prefix)[i]
      {
      }
      assert items[..|items| - 1] == prefix;
    }
  }

  lemma ForClientSnoc(reports: seq<Report>, r: Report, c: ClientId)
    ensures ForClient(reports + [r], c) == ForClient(reports, c) + (if ReportClient(r) == c then [r] else [])
  {
    assert (reports + [r])[..|reports|] == reports;
  }

  /** The last item's callback extends either the parse errors or the trace of the parsed transactions. */
  lemma CallbacksLast(prefix: seq<Result<Transaction, Error>>, item: Result<Transaction, Error>)
    ensures Callbacks(prefix + [item]) == Callbacks(prefix) + [CallbackOf(prefix, item)]
    ensures item.Err? ==>
      && Failures(Errs(prefix + [item])) == Failures(Errs(prefix)) + [CallbackOf(prefix, item)]
      && Oks(prefix + [item]) == Oks(prefix)
    ensures item.Ok? ==>
      && Errs(prefix + [item]) == Errs(prefix)
      && Trace(map[], Oks(prefix + [item])) == Trace(map[], Oks(prefix)) + [CallbackOf(prefix, item)]
  {
    var items := prefix + [item];
    assert items[..|items| - 1] == prefix;
    if item.Ok? {
      var oks := Oks(items);
      assert oks == Oks(prefix) + [item.value];
      assert oks[..|oks| - 1] == Oks(prefix);
    }
  }

  /** The same split, for the callbacks about one client. */
  lemma ForClientLast(prefix: seq<Result<Transaction, Error>>, item: Result<Transaction, Error>, c: ClientId)
    ensures
      var x := CallbackOf(prefix, item);
      var own := if ReportClient(x) == c then [x] else [];
      && ForClient(Callbacks(prefix + [item]), c) == ForClient(Callbacks(prefix), c) + own
      && ForClient(Failures(Errs(prefix + [item])), c) ==
           ForClient(Failures(Errs(prefix)), c) + (if item.Err? then own else [])
      && ForClient(Trace(map[], Oks(prefix + [item])), c) ==
           ForClient(Trace(map[], Oks(prefix)), c) + (if item.Ok? then own else [])
  {
    CallbacksLast(prefix, item);
    var x := CallbackOf(prefix, item);
    ForClientSnoc(Callbacks(prefix), x, c);
    if item.Err? {
      ForClientSnoc(Failures(Errs(prefix)), x, c);
      assert Trace(map[], Oks(prefix + [item])) == Trace(map[], Oks(prefix));
    } else {
      ForClientSnoc(Trace(map[], Oks(prefix)), x, c);
      assert Failures(Errs(prefix + [item])) == Failures(Errs(prefix));
    }
  }

  /** The callbacks split into the parse errors and the trace of the parsed transactions, per client. */
  lemma {:induction false} CallbacksSplit(items: seq<Result<Transaction, Error>>, c: ClientId)
    ensures multiset(ForClient(Callbacks(items), c)) ==
      multiset(ForClient(Failures(Errs(items)), c)) + multiset(ForClient(Trace(map[], Oks(items)), c))
    decreases |items|
  {
    if items != [] {
      var prefix, item := items[..|items| - 1], items[|items| - 1];
      assert items == prefix + [item];
      CallbacksSplit(prefix, c);
      ForClientLast(prefix, item, c);
    }
  }

  // ---------------------------------------------------------------------------
  // Locality: a client's entry depends only on that client's transactions

  /** A parse-free step reports about the transaction's own client. */
  lemma ReportAboutClient(m: Accounts, tx: Transaction)
    ensures ReportClient(StepReport(m, tx)) == ClientOf(tx)
  {
    if Handle(m, tx).result.Err? {
      LogicProps.FailureIsProcessingError(m, tx);
    }
  }

  /** The fold's entry for `c` is the fold of `c`'s own transactions from the same entry. */
  lemma {:induction false} ApplyLocal(a: Accounts, b: Accounts, txs: seq<Transaction>, c: ClientId)
    requires Get(a, c) == Get(b, c)
    ensures Get(Apply(a, txs), c) == Get(Apply(b, OfClient(txs, c)), c)
    decreases |txs|
  {
    if txs != [] {
      var prefix := txs[..|txs| - 1];
      var tx := txs[|txs| - 1];
      ApplyLocal(a, b, prefix, c);
      LogicProps.HandleFrame(Apply(a, prefix), tx);
      if ClientOf(tx) == c {
        var own := OfClient(txs, c);
        assert own == OfClient(prefix, c) + [tx];
        assert own[..|own| - 1] == OfClient(prefix, c);
        LogicProps.HandleCongruence(Apply(a, prefix), Apply(b, OfClient(prefix, c)), tx);
      } else {
        assert OfClient(txs, c) == OfClient(prefix, c);
      }
    }
  }

  /** Likewise for the reports: those about `c` are the reports of `c`'s own fold. */
  lemma {:induction false} TraceLocal(a: Accounts, b: Accounts, txs: seq<Transaction>, c: ClientId)
    requires Get(a, c) == Get(b, c)
    ensures ForClient(Trace(a, txs), c) == Trace(b, OfClient(txs, c))
    decreases |txs|
  {
    if txs != [] {
      var prefix := txs[..|txs| - 1];
      var tx := txs[|txs| - 1];
      TraceLocal(a, b, prefix, c);
      ReportAboutClient(Apply(a, prefix), tx);
      var t := Trace(a, txs);
      assert t[..|t| - 1] == Trace(a, prefix);
      if ClientOf(tx) == c {
        var own := OfClient(txs, c);
        assert own == OfClient(prefix, c) + [tx];
        assert own[..|own| - 1] == OfClient(prefix, c);
        ApplyLocal(a, b, prefix, c);
        LogicProps.HandleCongruence(Apply(a, prefix), Apply(b, OfClient(prefix, c)), tx);
      } else {
        assert OfClient(txs, c) == OfClient(prefix, c);
      }
    }
  }

  // ---------------------------------------------------------------------------
  // Sharding

  /** Every transaction of `c` goes to lane `c % numWorkers`, in order, and to no other lane. */
  lemma {:induction false} LaneClient(txs: seq<Transaction>, numWorkers: nat, w: nat, c: ClientId)
    requires numWorkers > 0
    ensures OfClient(LaneItems(txs, numWorkers, w), c) ==
      if w == LaneOf(c, numWorkers) then OfClient(txs, c) else []
    decreases |txs|
  {
    if txs != [] {
      var prefix := txs[..|txs| - 1];
      var tx := txs[|txs| - 1];
      LaneClient(prefix, numWorkers, w, c);
      var own := if ClientOf(tx) == c then [tx] else [];
      assert OfClient(txs, c) == OfClient(prefix, c) + own;
      var lane := LaneItems(txs, numWorkers, w);
      if LaneOf(ClientOf(tx), numWorkers) == w {
        assert lane == LaneItems(prefix, numWorkers, w) + [tx];
        assert lane[..|lane| - 1] == LaneItems(prefix, numWorkers, w) && lane[|lane| - 1] == tx;
        assert OfClient(lane, c) == OfClient(LaneItems(prefix, numWorkers, w), c) + own;
      } else {
        assert lane == LaneItems(prefix, numWorkers, w);
      }
    }
  }

  /** A lane's partition holds only clients routed to that lane, so partitions are disjoint. */
  lemma LaneKeys(txs: seq<Transaction>, numWorkers: nat, w: nat)
    requires numWorkers > 0
    ensures forall k :: k in Apply(map[], LaneItems(txs, numWorkers, w)) ==> LaneOf(k, numWorkers) == w
  {
    forall k | k in Apply(map[], LaneItems(txs, numWorkers, w))
      ensures LaneOf(k, numWorkers) == w
    {
      ApplyLocal(map[], map[], LaneItems(txs, numWorkers, w), k);
      LaneClient(txs, numWorkers, w, k);
    }
  }

  /** Merging disjoint partitions: each client's entry comes from its own lane's partition. */
  lemma {:induction false} MergeEntry(parts: seq<Accounts>, numWorkers: nat, c: ClientId)
    requires numWorkers > 0
    requires forall w, k :: 0 <= w < |parts| && k in parts[w] ==> LaneOf(k, numWorkers) == w
    ensures Get(Merge(parts), c) ==
      if LaneOf(c, numWorkers) < |parts| then Get(parts[LaneOf(c, numWorkers)], c) else None
    decreases |parts|
  {
    if parts != [] {
      var prefix := parts[..|parts| - 1];
      assert forall w :: 0 <= w < |prefix| ==> prefix[w] == parts[w];
      MergeEntry(prefix, numWorkers, c);
    }
  }

  /** Maps over client ids agree when every client's entry does. */
  lemma AccountsExt(a: Accounts, b: Accounts)
    requires forall c: ClientId :: Get(a, c) == Get(b, c)
    ensures a == b
  {
    assert forall c :: c in a <==> c in b by {
      forall c: ClientId ensures c in a <==> c in b {
        assert Get(a, c).Some? <==> Get(b, c).Some?;
      }
    }
    forall c | c in a ensures a[c] == b[c] {
      assert Get(a, c) == Get(b, c);
    }
  }

  /**
   * The sharded engine computes the sequential result: folding each lane's sub-stream from
   * an empty map and merging the partitions gives the fold of the whole stream.
   */
  lemma ShardedEqualsSequential(txs: seq<Transaction>, numWorkers: nat, parts: seq<Accounts>)
    requires numWorkers > 0 && |parts| == numWorkers
    requires forall w :: 0 <= w < numWorkers ==> parts[w] == Apply(map[], LaneItems(txs, numWorkers, w))
    ensures Merge(parts) == Apply(map[], txs)
  {
    forall w, k | 0 <= w < |parts| && k in parts[w]
      ensures LaneOf(k, numWorkers) == w
    {
      LaneKeys(txs, numWorkers, w);
    }
    forall c: ClientId
      ensures Get(Merge(parts), c) == Get(Apply(map[], txs), c)
    {
      var w := LaneOf(c, numWorkers);
      MergeEntry(parts, numWorkers, c);
      ApplyLocal(map[], map[], LaneItems(txs, numWorkers, w), c);
      LaneClient(txs, numWorkers, w, c);
      ApplyLocal(map[], map[], txs, c);
    }
    AccountsExt(Merge(parts), Apply(map[], txs));
  }

  /**
   * The reports about each client are the same whether the stream is sharded or not:
   * those of the client's own lane are those of the whole stream, other lanes have none.
   */
  lemma LaneTrace(txs: seq<Transaction>, numWorkers: nat, w: nat, c: ClientId)
    requires numWorkers > 0
    ensures ForClient(Trace(map[], LaneItems(txs, numWorkers, w)), c) ==
      if w == LaneOf(c, numWorkers) then ForClient(Trace(map[], txs), c) else []
  {
    TraceLocal(map[], map[], LaneItems(txs, numWorkers, w), c);
    LaneClient(txs, numWorkers, w, c);
    TraceLocal(map[], map[], txs, c);
  }

  /**
   * Per client, the callbacks of the sequential engine are, as a multiset, the parse errors
   * about that client together with the reports of the client's own lane.
   */
  lemma ParallelCallbacksPerClient(items: seq<Result<Transaction, Error>>, numWorkers: nat, c: ClientId)
    requires numWorkers > 0
    ensures multiset(ForClient(Callbacks(items), c)) ==
      multiset(ForClient(Failures(Errs(items)), c)) +
      multiset(ForClient(Trace(map[], LaneItems(Oks(items), numWorkers, LaneOf(c, numWorkers))), c))
  {
    CallbacksSplit(items, c);
    LaneTrace(Oks(items), numWorkers, LaneOf(c, numWorkers), c);
  }

  // ---------------------------------------------------------------------------
  // One more element: how the folds grow, as the engines' loops use them

  lemma ApplySnoc(m: Accounts, txs: seq<Transaction>, tx: Transaction)
    ensures Apply(m, txs + [tx]) == Handle(Apply(m, txs), tx).accounts
    ensures Trace(m, txs + [tx]) == Trace(m, txs) + [StepReport(Apply(m, txs), tx)]
  {
    assert (txs + [tx])[..|txs|] == txs;
  }

  lemma ItemsSnoc(items: seq<Result<Transaction, Error>>, i: nat)
    requires i < |items|
    ensures Oks(items[..i + 1]) == Oks(items[..i]) + (if items[i].Ok? then [items[i].value] else [])
    ensures Errs(items[..i + 1]) == Errs(items[..i]) + (if items[i].Err? then [items[i].error] else [])
    ensures Callbacks(items[..i + 1]) == Callbacks(items[..i]) + [CallbackOf(items[..i], items[i])]
  {
    assert items[..i + 1][..i] == items[..i];
  }

  lemma LaneSnoc(txs: seq<Transaction>, tx: Transaction, numWorkers: nat, w: nat)
    requires numWorkers > 0
    ensures LaneItems(txs + [tx], numWorkers, w) ==
      LaneItems(txs, numWorkers, w) + (if LaneOf(ClientOf(tx), numWorkers) == w then [tx] else [])
  {
    assert (txs + [tx])[..|txs|] == txs;
  }
}
