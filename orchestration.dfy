/**
 * The two engines of src/engine/orchestration.rs. Callbacks are returned as sequences of
 * reports instead of being called. The parallel engine is run here one lane after the
 * other: the dispatch loop fills one inbox per worker, each worker folds its inbox from an
 * empty map, and the partitions are merged with `extend`.
 */
module Orchestration {
  import opened Wrappers
  import opened Transactions
  import opened Errors
  import opened Logic
  import opened Folds

  /**
   * `process_transactions`: one callback per input item, and the final accounts are the fold
   * of `handle_transaction` over the items that parsed.
   */
  method ProcessTransactions(items: seq<Result<Transaction, Error>>) returns (accounts: Accounts, callbacks: seq<Report>)
    ensures accounts == Apply(map[], Oks(items))
    ensures callbacks == Callbacks(items)
    ensures items == [] ==> accounts == map[] && callbacks == []
  {
    accounts := map[];
    callbacks := [];
    for i := 0 to |items|
      invariant accounts == Apply(map[], Oks(items[..i]))
      invariant callbacks == Callbacks(items[..i])
    {
      ItemsSnoc(items, i);
      var item := items[i];
      if item.Err? {
        assert Oks(items[..i + 1]) == Oks(items[..i]);
        callbacks := callbacks + [Failure(item.error)];
      } else {
        var tx := item.value;
        ApplySnoc(map[], Oks(items[..i]), tx);
        assert Oks(items[..i + 1]) == Oks(items[..i]) + [tx];
        var r;
        accounts, r := HandleTransaction(tx, accounts);
        callbacks := callbacks + [if r.Ok? then Success(tx) else Failure(r.error)];
      }
    }
    assert items[..|items|] == items;
  }

  /** One worker of `spawn_worker_threads`: folds its inbox from an empty map, reporting each step. */
  method RunWorker(inbox: seq<Transaction>) returns (accounts: Accounts, reports: seq<Report>)
    ensures accounts == Apply(map[], inbox)
    ensures reports == Trace(map[], inbox)
  {
    accounts := map[];
    reports := [];
    for i := 0 to |inbox|
      invariant accounts == Apply(map[], inbox[..i])
      invariant reports == Trace(map[], inbox[..i])
    {
      var tx := inbox[i];
      assert inbox[..i + 1] == inbox[..i] + [tx];
      ApplySnoc(map[], inbox[..i], tx);
      var r;
      accounts, r := HandleTransaction(tx, accounts);
      reports := reports + [if r.Ok? then Success(tx) else Failure(r.error)];
    }
    assert inbox[..|inbox|] == inbox;
  }

  /**
   * The main thread's loop of `process_transactions_parallel`: a parsed transaction goes to
   * the inbox of worker `client % num_workers`, a parse error to the error callback.
   */
  method Dispatch(items: seq<Result<Transaction, Error>>, numWorkers: nat)
    returns (inboxes: array<seq<Transaction>>, parseErrors: seq<Error>)
    requires numWorkers > 0
    ensures fresh(inboxes) && inboxes.Length == numWorkers
    ensures forall w :: 0 <= w < numWorkers ==> inboxes[w] == LaneItems(Oks(items), numWorkers, w)
    ensures parseErrors == Errs(items)
  {
    inboxes := new seq<Transaction>[numWorkers](_ => []);
    parseErrors := [];
    for i := 0 to |items|
      invariant forall w :: 0 <= w < numWorkers ==> inboxes[w] == LaneItems(Oks(items[..i]), numWorkers, w)
      invariant parseErrors == Errs(items[..i])
    {
      ItemsSnoc(items, i);
      var item := items[i];
      if item.Ok? {
        var tx := item.value;
        var w := LaneOf(ClientOf(tx), numWorkers);
        assert Oks(items[..i + 1]) == Oks(items[..i]) + [tx];
        forall v | 0 <= v < numWorkers
          ensures LaneItems(Oks(items[..i + 1]), numWorkers, v) ==
            LaneItems(Oks(items[..i]), numWorkers, v) + (if v == w then [tx] else [])
        {
          LaneSnoc(Oks(items[..i]), tx, numWorkers, v);
        }
        inboxes[w] := inboxes[w] + [tx];
      } else {
        assert Oks(items[..i + 1]) == Oks(items[..i]);
        parseErrors := parseErrors + [item.error];
      }
    }
    assert items[..|items|] == items;
  }

  /** Worker `w` ran: its partition and its reports are those of the fold of its inbox. */
  ghost predicate Ran(inbox: seq<Transaction>, partition: Accounts, reports: seq<Report>) {
    partition == Apply(map[], inbox) && reports == Trace(map[], inbox)
  }

  /** The workers of `spawn_worker_threads`, each folding its own inbox from an empty map. */
  method RunWorkers(inboxes: seq<seq<Transaction>>) returns (partitions: seq<Accounts>, laneReports: seq<seq<Report>>)
    ensures |partitions| == |inboxes| && |laneReports| == |inboxes|
    ensures forall w :: 0 <= w < |inboxes| ==> partitions[w] == Apply(map[], inboxes[w])
    ensures forall w :: 0 <= w < |inboxes| ==> laneReports[w] == Trace(map[], inboxes[w])
  {
    partitions := [];
    laneReports := [];
    for w := 0 to |inboxes|
      invariant |partitions| == w && |laneReports| == w
      invariant forall v :: 0 <= v < w ==> Ran(inboxes[v], partitions[v], laneReports[v])
    {
      var partition, reports := RunWorker(inboxes[w]);
      assert Ran(inboxes[w], partition, reports);
      partitions := partitions + [partition];
      laneReports := laneReports + [reports];
    }
  }

  /** The collecting loop: `all_accounts.extend(partition)` for each worker in turn. */
  method Collect(partitions: seq<Accounts>) returns (all: Accounts)
    ensures all == Merge(partitions)
  {
    all := map[];
    for w := 0 to |partitions|
      invariant all == Merge(partitions[..w])
    {
      assert partitions[..w + 1][..w] == partitions[..w];
      all := all + partitions[w];
    }
    assert partitions[..|partitions|] == partitions;
  }

  /**
   * `process_transactions_parallel`: the merged partitions are exactly the sequential result;
   * parse errors are reported in input order, each lane's reports are the fold of its own
   * sub-stream, and per client the callbacks are those of the sequential engine, none of them
   * from another lane.
   */
  method ProcessTransactionsParallel(items: seq<Result<Transaction, Error>>, numWorkers: nat)
    returns (accounts: Accounts, parseErrors: seq<Error>, laneReports: seq<seq<Report>>)
    requires numWorkers > 0
    ensures accounts == Apply(map[], Oks(items))
    ensures parseErrors == Errs(items)
    ensures |laneReports| == numWorkers
    ensures forall w :: 0 <= w < numWorkers ==> laneReports[w] == Trace(map[], LaneItems(Oks(items), numWorkers, w))
    ensures forall c: ClientId :: multiset(ForClient(Callbacks(items), c)) ==
      multiset(ForClient(Failures(parseErrors), c)) + multiset(ForClient(laneReports[LaneOf(c, numWorkers)], c))
    ensures forall w, c: ClientId :: 0 <= w < numWorkers && w != LaneOf(c, numWorkers) ==> ForClient(laneReports[w], c) == []
  {
    var inboxes;
    inboxes, parseErrors := Dispatch(items, numWorkers);
    var partitions;
    partitions, laneReports := RunWorkers(inboxes[..]);
    accounts := Collect(partitions);
    ShardedEqualsSequential(Oks(items), numWorkers, partitions);
    forall c: ClientId
      ensures multiset(ForClient(Callbacks(items), c)) ==
        multiset(ForClient(Failures(parseErrors), c)) + multiset(ForClient(laneReports[LaneOf(c, numWorkers)], c))
    {
      ParallelCallbacksPerClient(items, numWorkers, c);
    }
    forall w, c: ClientId | 0 <= w < numWorkers && w != LaneOf(c, numWorkers)
      ensures ForClient(laneReports[w], c) == []
    {
      LaneTrace(Oks(items), numWorkers, w, c);
    }
  }
}
