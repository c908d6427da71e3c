# tx-engine-rs in Dafny

A model of the transaction engine of tx-engine-rs, with proofs about it. The engine reads a
stream of deposits, withdrawals, disputes, resolves and chargebacks and keeps one account per
client:

- an account holds an `available` and a `held` balance, a `locked` flag, and two maps from
  transaction id to amount: the deposits that may still be disputed (`accepted`) and those under
  dispute (`disputed`);
- the engine folds the stream over a map from client id to account, calling `on_success` or
  `on_error` once per input item;
- the parallel engine routes client `c` to worker `c % num_workers`, lets each worker fold its own
  sub-stream, and merges the workers' maps.

Two utilities from the scenario test harness are modelled as well: `interleave`, which merges
per-client scenarios by a schedule, and `build_schedule`, which makes such a schedule with a
Fisher–Yates shuffle.

Modules, following the source:

| file | module | models |
|---|---|---|
| wrappers.dfy | Wrappers | `Option` and `Result` |
| transaction.dfy | Transactions | transaction kinds and their validating constructors (src/domain/transaction.rs) |
| error.dfy | Errors | the `Validation` and `Processing` errors (src/error.rs) |
| account_spec.dfy | AccountSpec | the account as a value `Ledger`, with the five operations as transitions |
| account_props.dfy | AccountProps | the ledger invariant and the dispute/resolve round trip |
| account.dfy | Account | `AccountState` as a class whose methods update its fields in place |
| logic.dfy | Logic | `handle_transaction` and its handlers (src/engine/logic.rs) |
| logic_props.dfy | LogicProps | what one step guarantees about the map |
| folds.dfy | Folds | the fold, its callbacks, lanes and merging, and the sharding theorem |
| orchestration.dfy | Orchestration | the sequential and parallel engines as loops |
| stream_props.dfy | StreamProps | money conservation, the invariant and locking over a whole stream |
| sums.dfy | Sums | the sum of a map's values |
| output.dfy | Output | `AccountRecord` and `to_account_records` |
| scenario.dfy | Scenarios | `interleave` |
| schedule.dfy | Schedules | `build_schedule` |

Representation:

- Money (`rust_decimal::Decimal`) is an `int`, the amount in the smallest decimal unit.
- Client ids are u16 and transaction ids are u32, each as a bounded `int` subtype.
- Deposit and withdrawal amounts have the type `PositiveMoney`, because their constructors reject
  amounts that are not positive.
- `Dispute::new`, `Resolve::new` and `Chargeback::new` always succeed. They are the datatype
  constructors of `Transactions`, and their accessors are the datatype's fields.
- The map of accounts holds `Ledger` values: a Rust `HashMap` owns its entries, so nothing is
  aliased. A handler takes the entry out as an `AccountState` object, calls the mutating method,
  and writes the object's state back. This is the model of `get_mut` followed by an in-place call.
- The callbacks are returned as a sequence of `Report`s, `Success(tx)` or `Failure(error)`, in call
  order.
- The parallel engine runs its three phases one after the other: the dispatch loop fills one inbox
  per worker, each worker folds its inbox from an empty map, and the collecting loop merges the
  partitions with map union (`extend`).

Main results:

- `Folds.ShardedEqualsSequential` proves that the merged map equals the sequential fold, for every
  stream and every positive number of workers; `Orchestration.ProcessTransactionsParallel` states it for the
  method.
- Per client, the callbacks of both engines are the same multiset.
- Money is conserved over a stream (`StreamProps.ApplyConserves`).
- With unique deposit ids, every account keeps the ledger invariant (`StreamProps.StreamKeepsValid`).
- A locked account never changes again (`StreamProps.LockedStays`).
- `interleave` keeps each scenario's rows in order and loses none (`Scenarios.InterleavePreservesOrder`,
  `Scenarios.InterleaveKeepsRows`).
- Every schedule `build_schedule` produces is accepted by `interleave` (`Schedules.ShuffleFits`).

## Model

| member | source | states |
|---|---|---|
| Transactions.NewDeposit | src/domain/transaction.rs:56-65 | fails iff the amount is not positive; otherwise the value carries exactly the client, tx id and amount given |
| Transactions.NewWithdrawal | src/domain/transaction.rs:25-34 | fails iff the amount is not positive; otherwise the value carries exactly the client, tx id and amount given |
| AccountSpec.Deposit | src/domain/account.rs:30-37 | succeeds iff the account is unlocked, failing with LockedAccount otherwise; on success `available` grows by the amount, `accepted` maps the tx id to the amount, and `held`, `disputed` and `locked` are unchanged |
| AccountSpec.Withdraw | src/domain/account.rs:39-48 | succeeds iff unlocked and `amount <= available`; failure reasons are LockedAccount first, then InsufficientFunds; on success only `available` changes, falling by the amount |
| AccountSpec.Dispute | src/domain/account.rs:50-69 | succeeds iff unlocked, the deposit is accepted and its amount is still available; failure reasons are LockedAccount, UnknownTransaction and FundsAlreadyWithdrawn; on success the amount moves from `available` to `held`, the entry moves from `accepted` to `disputed`, and the total is unchanged |
| AccountSpec.Resolve | src/domain/account.rs:71-86 | succeeds iff unlocked and the deposit is disputed, failing with UndisputedTransaction otherwise; on success the amount moves back from `held` to `available` and the entry back to `accepted` |
| AccountSpec.Chargeback | src/domain/account.rs:88-102 | succeeds iff unlocked and the deposit is disputed; on success `held` falls by the amount, the entry leaves `disputed` without returning to `accepted`, `available` is unchanged, and the account locks; the total falls by the amount |
| Account.AccountState.constructor | src/domain/account.rs:8-16 | the default state is the zero ledger: zero balances, unlocked, no deposits; `Logic.HandleDeposit` creates it for a client without an account |
| Account.AccountState.FromLedger | src/engine/logic.rs:38 | the object taken out of the map holds exactly the entry's state |
| Account.AccountState.EnsureNotLocked | src/domain/account.rs:104-110 | fails iff the account is locked, with LockedAccount |
| Account.AccountState.Deposit | src/domain/account.rs:30-37 | updating the fields in place has exactly the effect of `AccountSpec.Deposit`; a failure leaves every field as it was |
| Account.AccountState.Withdraw | src/domain/account.rs:39-48 | same, for `AccountSpec.Withdraw` |
| Account.AccountState.Dispute | src/domain/account.rs:50-69 | same, for `AccountSpec.Dispute` |
| Account.AccountState.Resolve | src/domain/account.rs:71-86 | same, for `AccountSpec.Resolve` |
| Account.AccountState.Chargeback | src/domain/account.rs:88-102 | same, for `AccountSpec.Chargeback` |
| AccountProps.HeldCoversDisputed | src/domain/account.rs:75-78 | on a valid ledger `held` covers every disputed amount, which is what the `debug_assert`s of resolve and chargeback check |
| AccountProps.DepositKeepsValid | src/domain/account.rs:30-37 | a deposit whose id is not under dispute keeps the invariant: balances non-negative, `held` the sum of the disputed amounts, and no id both accepted and disputed |
| AccountProps.WithdrawKeepsValid | src/domain/account.rs:39-48 | withdraw keeps the invariant |
| AccountProps.DisputeKeepsValid | src/domain/account.rs:50-69 | dispute keeps the invariant |
| AccountProps.ResolveKeepsValid | src/domain/account.rs:71-86 | resolve keeps the invariant |
| AccountProps.ChargebackKeepsValid | src/domain/account.rs:88-102 | chargeback keeps the invariant |
| AccountProps.DisputeResolveRoundTrip | src/domain/account.rs:50-86 | resolve after a successful dispute restores the ledger exactly; the deposit can then be disputed again, and a second resolve fails with UndisputedTransaction |
| AccountProps.ValidDisputeResolveRoundTrip | src/domain/account.rs:50-86 | on a valid ledger the round trip needs only that the dispute succeeded |
| AccountProps.TrackedIds | src/domain/account.rs:30-102 | only a deposit adds a transaction id to the account's records, and only its own id |
| Logic.EnsureClientIsKnown | src/engine/logic.rs:81-92 | returns the client's account iff it has one, otherwise a Processing error with the client and the given tx id |
| Logic.Operation | src/engine/logic.rs:15-21 | the operation a kind runs fails with LockedAccount exactly when the account is locked, and only a chargeback leaves the account locked |
| Logic.Commit | src/engine/logic.rs:28-31 | writing back an outcome: the client's entry becomes the new account on success and stays the old one on failure, that key is present afterwards, every other entry is unchanged, and a failure becomes Processing(client, tx id) |
| Logic.Handle | src/engine/logic.rs:14-92 | one step: only a deposit adds a key (its client's, through `or_default`), and every failure is Processing with the client and the tx id the handler names (the referenced deposit for dispute, resolve and chargeback) |
| Logic.HandleTransaction | src/engine/logic.rs:14-22 | updating the map through the matching handler gives exactly the step `Logic.Handle` |
| Logic.HandleDeposit | src/engine/logic.rs:24-32 | `entry().or_default()` followed by `deposit` gives exactly `Logic.Handle` |
| Logic.HandleWithdrawal | src/engine/logic.rs:34-49 | the missing-account error, or `withdraw`, gives exactly `Logic.Handle` |
| Logic.HandleDispute | src/engine/logic.rs:51-59 | `ensure_client_is_known` followed by `dispute` gives exactly `Logic.Handle` |
| Logic.HandleResolve | src/engine/logic.rs:61-69 | `ensure_client_is_known` followed by `resolve` gives exactly `Logic.Handle` |
| Logic.HandleChargeback | src/engine/logic.rs:71-79 | `ensure_client_is_known` followed by `chargeback` gives exactly `Logic.Handle` |
| LogicProps.HandleDispatch | src/engine/logic.rs:15-21 | every kind runs exactly its matching account operation on the client's (for a deposit, possibly default) account, and the step succeeds iff that operation does |
| LogicProps.DepositCreatesAccount | src/engine/logic.rs:24-32 | a deposit always leaves its client present; for an absent client it succeeds and the new account holds just that deposit |
| LogicProps.FirstDeposit | src/engine/logic.rs:28-31 | a deposit into the default account succeeds and yields that deposit alone, available |
| LogicProps.UnknownClientRejected | src/engine/logic.rs:34-44 | any other kind for an absent client returns Processing(client, tx id) and leaves the map unchanged |
| LogicProps.FailureIsProcessingError | src/engine/logic.rs:29-31 | every failure is Processing with the client and the (for dispute, resolve and chargeback: referenced) tx id; no existing entry changes; a rejected deposit still leaves its client present |
| LogicProps.HandleFrame | src/engine/logic.rs:14-22 | every entry but the transaction's client's is unchanged, and only a deposit adds a key |
| LogicProps.HandleCongruence | src/engine/logic.rs:14-22 | the outcome and the client's new entry depend only on the client's old entry |
| LogicProps.HandleConserves | src/engine/logic.rs:14-22 | one step changes the money held in all by exactly the deposit, minus the withdrawal or the charged-back amount that succeeded |
| LogicProps.OperationMoves | src/domain/account.rs:33-96 | the account an operation commits holds its old total plus the money the step moves |
| LogicProps.HandleKeepsValid | src/engine/logic.rs:14-22 | a step keeps every account valid, provided a deposit's id is not under dispute on its account |
| LogicProps.HandleTracks | src/engine/logic.rs:24-32 | a step adds to its own client's records at most a deposit's id, and nothing to any other client's |
| LogicProps.LockedIsTerminal | src/domain/account.rs:104-110 | on a locked account every transaction fails and the map stays as it was |
| Folds.CallbacksAt | src/engine/orchestration.rs:26-39 | one callback per item: a parse error goes to `on_error`; a parsed transaction goes to `on_success` iff handling it after the earlier items succeeds, and to `on_error` otherwise |
| Folds.Apply | src/engine/orchestration.rs:24-41 | folding `handle_transaction` over a stream never removes a client's account |
| Folds.Trace | src/engine/orchestration.rs:158-168 | a worker reports exactly one callback per transaction of its inbox |
| Folds.Callbacks | src/engine/orchestration.rs:26-39 | exactly one callback per input item |
| Folds.LaneOf | src/engine/orchestration.rs:79-81 | `client as usize % num_workers` names an existing worker |
| Folds.LaneItems | src/engine/orchestration.rs:76-93 | a worker's inbox is no longer than the stream and holds only transactions routed to that worker |
| Folds.Merge | src/engine/orchestration.rs:102-106 | every partition's keys are in the merged map, and the last partition's entries win, as `extend` overwrites |
| Folds.CallbacksSplit | src/engine/orchestration.rs:26-39 | per client, the callbacks are the parse errors plus the reports of the fold over the parsed transactions |
| Folds.ApplyLocal | src/engine/logic.rs:14-22 | a client's entry after a fold is the fold of that client's own transactions |
| Folds.TraceLocal | src/engine/orchestration.rs:35-38 | the reports about a client are those of the fold of its own transactions |
| Folds.LaneClient | src/engine/orchestration.rs:79-86 | all of a client's transactions go to lane `c % num_workers`, in their original order, and to no other lane |
| Folds.LaneKeys | src/engine/orchestration.rs:157-170 | a lane's partition holds only clients routed to it, so the partitions are disjoint |
| Folds.MergeEntry | src/engine/orchestration.rs:102-106 | merging disjoint partitions takes each client's entry from its own lane's partition |
| Folds.ShardedEqualsSequential | src/engine/orchestration.rs:49-110 | merging the per-lane folds gives the sequential fold of the whole stream |
| Folds.LaneTrace | src/engine/orchestration.rs:157-170 | the reports about a client from its own lane equal those of the whole stream; other lanes report nothing about it |
| Folds.ParallelCallbacksPerClient | src/engine/orchestration.rs:19-110 | per client, the sequential callbacks are, as a multiset, the parse errors plus the reports of the client's lane |
| Orchestration.ProcessTransactions | src/engine/orchestration.rs:19-42 | the final map is the fold of `handle_transaction` over the parsed items in input order; the callbacks are `Folds.Callbacks`; an empty input gives an empty map and no callbacks |
| Orchestration.RunWorker | src/engine/orchestration.rs:156-171 | a worker's map is the fold of its inbox from an empty map, and it reports each step in order |
| Orchestration.Dispatch | src/engine/orchestration.rs:76-93 | inbox `w` receives exactly the parsed transactions of lane `w`, in order; the parse errors go to the error callback in order |
| Orchestration.RunWorkers | src/engine/orchestration.rs:151-175 | each worker folds its own inbox |
| Orchestration.Collect | src/engine/orchestration.rs:102-106 | the collected map is the union of the partitions in worker order |
| Orchestration.ProcessTransactionsParallel | src/engine/orchestration.rs:49-110 | the final map equals the sequential engine's; parse errors arrive in input order; each lane's reports are the fold of its sub-stream in order (successes and errors each keep that order on their own channel); per client the callbacks equal the sequential ones as a multiset, and the other lanes report nothing about that client |
| StreamProps.ApplyConserves | src/engine/orchestration.rs:35-38 | over a stream, the money held in all changes by the successful deposits minus the successful withdrawals and chargebacks; from no accounts it equals that difference |
| StreamProps.StreamKeepsValid | src/domain/account.rs:75-78 | with deposit ids unique per client, every account of the fold keeps the invariant and records only its client's deposit ids |
| StreamProps.LockedStays | src/domain/account.rs:97 | a locked account stays exactly as it is for the rest of the stream, and all its later transactions fail |
| Output.NewRecord | src/output/mod.rs:28-37 | `total == available + held`; the client, both balances and the lock are copied unchanged |
| Output.ToAccountRecords | src/output/mod.rs:10-16 | a record is produced iff it is the record of a map entry |
| Output.RecordClients | src/output/mod.rs:13-15 | the records' clients are exactly the map's keys; an empty map gives no records |
| Output.RecordCount | src/output/mod.rs:10-16 | exactly one record per map entry |
| Scenarios.Interleave | tests/scenarios/scenario.rs:41-70 | succeeds iff every step names an existing scenario and each scenario is named once per row; then the output is the header plus one row per step, each the next unread row of its scenario; otherwise it names the first step that indexes past the scenarios or overruns one, or the first scenario left unfinished |
| Scenarios.SelectPrefix | tests/scenarios/scenario.rs:45-57 | after any prefix of steps, what was pulled from a scenario is a prefix of its rows |
| Scenarios.InterleavePreservesOrder | tests/scenarios/scenario.rs:45-67 | on success, the rows taken from each scenario are exactly its rows, in order |
| Scenarios.InterleaveKeepsRows | tests/scenarios/scenario.rs:45-67 | on success, the body holds exactly the rows of all scenarios, as a multiset |
| Scenarios.SelectionsSplit | tests/scenarios/scenario.rs:45-57 | the rows pulled from each scenario, together, are the body's rows |
| Schedules.SwapIndex | tests/scenarios/mod.rs:78 | the swap index lies in `0 ..= i` |
| Schedules.LcgStep | tests/scenarios/mod.rs:75-77 | `wrapping_mul` then `wrapping_add` is the affine step `(r * 6364136223846793005 + 1442695040888963407) mod 2^64` |
| Schedules.Copies | tests/scenarios/mod.rs:69 | `repeat_n(c, m)` has length `m` and every entry is `c` |
| Schedules.Repeats | tests/scenarios/mod.rs:66-70 | the repeat list names only existing scenarios |
| Schedules.ShuffleDown | tests/scenarios/mod.rs:73-80 | the loop from `i = n-1` down keeps the length and never touches a position at or past `n` |
| Schedules.Shuffled | tests/scenarios/mod.rs:72-80 | the shuffle keeps the length of the list |
| Schedules.Swap | tests/scenarios/mod.rs:79 | the two positions exchange their values; all others keep theirs |
| Schedules.BuildSchedule | tests/scenarios/mod.rs:64-83 | the result is the seeded shuffle of the repeat list; it has one entry per row of all scenarios and fits them, so `interleave` accepts it |
| Schedules.Shuffle | tests/scenarios/mod.rs:72-80 | the in-place loop over the buffer computes the recursive shuffle of its old contents |
| Schedules.CopiesCount | tests/scenarios/mod.rs:69 | `repeat_n(c, m)` holds `m` copies of `c` and nothing else |
| Schedules.RepeatsLength | tests/scenarios/mod.rs:66-70 | the repeat list has one entry per row of all scenarios |
| Schedules.RepeatsAscending | tests/scenarios/mod.rs:66-70 | the repeat list names only existing scenarios, in ascending order |
| Schedules.RepeatsCount | tests/scenarios/mod.rs:66-70 | the repeat list names scenario `i` exactly as often as it has rows, and nothing else |
| Schedules.SwapPermutes | tests/scenarios/mod.rs:79 | a swap keeps the list's contents |
| Schedules.ShufflePermutes | tests/scenarios/mod.rs:73-80 | the shuffle keeps the length and the multiset of entries |
| Schedules.ShuffleFits | tests/scenarios/mod.rs:64-83 | for any seed the schedule fits the scenarios: its length is the number of rows, and each index occurs once per row of its scenario |
| Schedules.SingleScenario | tests/scenarios/mod.rs:227-233 | with one scenario every entry is 0, whatever the seed |

The remaining lemmas are proof steps. Examples are how a fold, a lane or the callbacks grow by one
element, extensionality of maps, and sums over maps.

## Left out

- Threads, channels and their capacity, the callback threads, and panics surfacing at `join`. The
  parallel engine's three phases run one after the other; only its result and each lane's reports
  are modelled.
- The split of a lane's reports over two channels. A worker sends successes on one channel and
  errors on another (src/engine/orchestration.rs:163-166), each drained by its own callback thread
  (src/engine/orchestration.rs:112-136). The model keeps a lane's reports as one sequence in step
  order; in the source only the successes among themselves and the errors among themselves keep
  that order.
- The order of callbacks between lanes. It depends on scheduling, so it is stated per client, as a
  multiset.
- Orchestration.ProcessTransactionsParallel and Orchestration.Dispatch: they require at least one
  worker. With zero workers the source panics (remainder by zero) at the first parsed transaction.
- CSV parsing and serialisation (src/input/mod.rs, `Serialize`) and the `Csv` error variant. The
  engines take the already parsed items. `Validation` errors are only carried through.
- `TransactionRecord::from_domain` is not part of this model: a success callback carries the
  transaction itself.
- Error message text: errors keep only their kind, client id and transaction id.
- Decimal overflow and scale: amounts are unbounded integers.
- The getters `available_funds`, `held_funds` and `is_locked` (src/domain/account.rs:112-120) are
  not modelled: `Output.NewRecord` reads the fields of the account value.
- `Transaction::client_id` and the per-kind id getters are the projections `ClientOf` and
  `ErrorTxId`; what the engine does with them is stated by `Folds.LaneClient`,
  `LogicProps.HandleFrame` and `LogicProps.FailureIsProcessingError`.
- The process code (src/main.rs, src/telemetry.rs), the benchmarks, and the file and subprocess
  tests.
- The proptest driver, the scenario catalog, `run_process` and `assert_scenarios`. Of a scenario
  only its rows are kept. Its client id and expected outcomes (tests/scenarios/scenario.rs:9-20) are
  used only by those oracles.
- The `join("\n")` of `interleave`. The model returns the sequence of rows, header first.
- The panics of `interleave` become the error values `IndexOutOfRange`, `Overrun` and `Underrun`.
- The determinism of `build_schedule` (tests/scenarios/mod.rs:201-208) is not a lemma of its own:
  the `ensures` of `Schedules.BuildSchedule` fixes the result as `Shuffled(Repeats(scenarios), seed)`,
  so equal scenarios and seeds give equal schedules. The test that seeds 1 and 2 give different schedules is a
  computation on concrete values and is not reproduced.
- The `debug_assert!`s of resolve and chargeback (src/domain/account.rs:75-78, 92-95) are not
  modelled as panics. `AccountProps.HeldCoversDisputed` shows that they cannot fire on a valid
  ledger.
- The engines take a finite sequence of parsed items. The source accepts any iterator, including
  one that never ends; the model says nothing about such a stream.
- AccountSpec.Deposit: its contract gives the field effects, not the new total as a separate
  clause. `LogicProps.OperationMoves` states the total.
- The stale files src/domain/mod.rs, src/engine/mod.rs and src/lib.rs, which contradict the files
  modelled here.
