/**
 * `interleave` from tests/scenarios/scenario.rs: merges per-client scenarios into one CSV
 * body following a schedule of scenario indices. Only a scenario's rows matter here, so a
 * scenario is its sequence of rows; the final `join("\n")` is not modelled, the result is
 * the sequence of rows. The panics of the source become errors.
 */
module Scenarios {
  import opened Wrappers

  /** The CSV header row. */
  const Header: string := "type, client, tx, amount"

  /** Why `interleave` panics: an index past the scenarios, a scenario pulled too often or too rarely. */
  datatype InterleaveError =
    | IndexOutOfRange(position: nat)
    | Overrun(position: nat)
    | Underrun(scenario: nat)

  /** Step `k` of the schedule names a scenario that still has a row left. */
  predicate StepOk(scenarios: seq<seq<string>>, schedule: seq<nat>, k: nat)
    requires k < |schedule|
  {
    schedule[k] < |scenarios| && multiset(schedule[..k])[schedule[k]] < |scenarios[schedule[k]]|
  }

  /** The row step `k` pulls: the next unread row of its scenario. */
  function Row(scenarios: seq<seq<string>>, schedule: seq<nat>, k: nat): string
    requires k < |schedule| && StepOk(scenarios, schedule, k)
  {
    scenarios[schedule[k]][multiset(schedule[..k])[schedule[k]]]
  }

  /** Every step names an existing scenario and each scenario is named once per row. */
  predicate ScheduleFits(scenarios: seq<seq<string>>, schedule: seq<nat>) {
    && (forall k :: 0 <= k < |schedule| ==> schedule[k] < |scenarios|)
    && (forall i :: 0 <= i < |scenarios| ==> multiset(schedule)[i] == |scenarios[i]|)
  }

  /** `body` is what the schedule pulls: at every step the next row of the named scenario. */
  predicate Interleaved(scenarios: seq<seq<string>>, schedule: seq<nat>, body: seq<string>) {
    && |body| == |schedule|
    && forall k :: 0 <= k < |schedule| ==> StepOk(scenarios, schedule, k) && body[k] == Row(scenarios, schedule, k)
  }

  /** The rows at the steps that name scenario `i`, in order. */
  function Select(body: seq<string>, schedule: seq<nat>, i: nat): seq<string>
    requires |body| == |schedule|
    decreases |body|
  {
    if body == [] then []
    else
      var n := |body| - 1;
      Select(body[..n], schedule[..n], i) + (if schedule[n] == i then [body[n]] else [])
  }

  /** All scenarios' rows, scenario after scenario. */
  function Flatten(scenarios: seq<seq<string>>): seq<string>
    decreases |scenarios|
  {
    if scenarios == [] then [] else Flatten(scenarios[..|scenarios| - 1]) + scenarios[|scenarios| - 1]
  }

  lemma PrefixCount(s: seq<nat>, k: nat, x: nat)
    requires k <= |s|
    ensures multiset(s[..k])[x] <= multiset(s)[x]
  {
    assert s == s[..k] + s[k..];
  }

  /**
   * `interleave`: succeeds iff the schedule fits the scenarios. Then the output is the header
   * followed by one row per step, each the next unread row of the scenario the step names.
   * Otherwise it reports the first step that names a missing scenario or one already used up,
   * or, when every step is fine, the first scenario left with rows unread.
   */
  method Interleave(scenarios: seq<seq<string>>, schedule: seq<nat>) returns (r: Result<seq<string>, InterleaveError>)
    ensures r.Ok? <==> ScheduleFits(scenarios, schedule)
    ensures r.Ok? ==> |r.value| == |schedule| + 1 && r.value[0] == Header && Interleaved(scenarios, schedule, r.value[1..])
    ensures r.Err? && r.error.IndexOutOfRange? ==>
      var k := r.error.position;
      && k < |schedule| && schedule[k] >= |scenarios|
      && forall j :: 0 <= j < k ==> StepOk(scenarios, schedule, j)
    ensures r.Err? && r.error.Overrun? ==>
      var k := r.error.position;
      && k < |schedule| && schedule[k] < |scenarios|
      && multiset(schedule[..k])[schedule[k]] == |scenarios[schedule[k]]|
      && forall j :: 0 <= j < k ==> StepOk(scenarios, schedule, j)
    ensures r.Err? && r.error.Underrun? ==>
      var i := r.error.scenario;
      && (forall k :: 0 <= k < |schedule| ==> StepOk(scenarios, schedule, k))
      && i < |scenarios| && multiset(schedule)[i] < |scenarios[i]|
      && forall j :: 0 <= j < i ==> multiset(schedule)[j] == |scenarios[j]|
  {
    var cursors := new nat[|scenarios|](_ => 0);
    var rows := [Header];
    for k := 0 to |schedule|
      invariant |rows| == k + 1 && rows[0] == Header
      invariant forall j :: 0 <= j < k ==> StepOk(scenarios, schedule, j) && rows[j + 1] == Row(scenarios, schedule, j)
      invariant forall i :: 0 <= i < |scenarios| ==> cursors[i] == multiset(schedule[..k])[i] <= |scenarios[i]|
    {
      var idx := schedule[k];
      assert schedule[..k + 1] == schedule[..k] + [idx];
      if idx >= |scenarios| {
        return Err(IndexOutOfRange(k));
      }
      if cursors[idx] >= |scenarios[idx]| {
        PrefixCount(schedule, k + 1, idx);
        return Err(Overrun(k));
      }
      rows := rows + [scenarios[idx][cursors[idx]]];
      cursors[idx] := cursors[idx] + 1;
    }
    assert schedule[..|schedule|] == schedule;
    for i := 0 to |scenarios|
      invariant forall j :: 0 <= j < |scenarios| ==> cursors[j] == multiset(schedule)[j] <= |scenarios[j]|
      invariant forall j :: 0 <= j < i ==> cursors[j] == |scenarios[j]|
    {
      if cursors[i] != |scenarios[i]| {
        return Err(Underrun(i));
      }
    }
    assert forall k :: 0 <= k < |schedule| ==> schedule[k] < |scenarios| by {
      forall k | 0 <= k < |schedule| ensures schedule[k] < |scenarios| {
        assert StepOk(scenarios, schedule, k);
      }
    }
    assert forall i :: 0 <= i < |scenarios| ==> multiset(schedule)[i] == |scenarios[i]|;
    return Ok(rows);
  }

  lemma SelectSnoc(body: seq<string>, schedule: seq<nat>, row: string, j: nat, i: nat)
    requires |body| == |schedule|
    ensures Select(body + [row], schedule + [j], i) == Select(body, schedule, i) + (if j == i then [row] else [])
  {
    assert (body + [row])[..|body|] == body && (schedule + [j])[..|schedule|] == schedule;
  }

  /** A prefix of an interleaving is the interleaving of the schedule's prefix. */
  lemma InterleavedPrefix(scenarios: seq<seq<string>>, schedule: seq<nat>, body: seq<string>, n: nat)
    requires Interleaved(scenarios, schedule, body) && n <= |schedule|
    ensures Interleaved(scenarios, schedule[..n], body[..n])
  {
    forall k | 0 <= k < n
      ensures StepOk(scenarios, schedule[..n], k) && body[..n][k] == Row(scenarios, schedule[..n], k)
    {
      assert schedule[..n][..k] == schedule[..k] && schedule[..n][k] == schedule[k];
      assert StepOk(scenarios, schedule, k);
    }
  }

  /** What the first `|schedule|` steps pull of each scenario is a prefix of its rows, in order. */
  lemma {:induction false} SelectPrefix(scenarios: seq<seq<string>>, schedule: seq<nat>, body: seq<string>, i: nat)
    requires Interleaved(scenarios, schedule, body)
    requires i < |scenarios|
    ensures multiset(schedule)[i] <= |scenarios[i]|
    ensures Select(body, schedule, i) == scenarios[i][..multiset(schedule)[i]]
    decreases |schedule|
  {
    if schedule != [] {
      var n := |schedule| - 1;
      var s: seq<nat>, b := schedule[..n], body[..n];
      InterleavedPrefix(scenarios, schedule, body, n);
      SelectPrefix(scenarios, s, b, i);
      assert schedule == s + [schedule[n]] && body == b + [body[n]];
      assert StepOk(scenarios, schedule, n) && body[n] == Row(scenarios, schedule, n);
      SelectPrefixStep(scenarios[i], s, b, schedule[n], body[n], i);
    }
  }

  /** One more step keeps the rows pulled of scenario `i` (its rows `rows`) a prefix of them. */
  lemma SelectPrefixStep(rows: seq<string>, s: seq<nat>, b: seq<string>, x: nat, row: string, i: nat)
    requires |b| == |s| && multiset(s)[i] <= |rows|
    requires Select(b, s, i) == rows[..multiset(s)[i]]
    requires x == i ==> multiset(s)[i] < |rows| && row == rows[multiset(s)[i]]
    ensures multiset(s + [x])[i] <= |rows|
    ensures Select(b + [row], s + [x], i) == rows[..multiset(s + [x])[i]]
  {
    SelectSnoc(b, s, row, x, i);
    var c := multiset(s)[i];
    assert multiset(s + [x]) == multiset(s) + multiset{x};
    if x == i {
      assert rows[..c] + [rows[c]] == rows[..c + 1];
    }
  }

  /** Each scenario's rows appear in the output exactly, in their original order. */
  lemma InterleavePreservesOrder(scenarios: seq<seq<string>>, schedule: seq<nat>, body: seq<string>, i: nat)
    requires ScheduleFits(scenarios, schedule) && Interleaved(scenarios, schedule, body)
    requires i < |scenarios|
    ensures Select(body, schedule, i) == scenarios[i]
  {
    SelectPrefix(scenarios, schedule, body, i);
    assert scenarios[i][..|scenarios[i]|] == scenarios[i];
  }

  /** What the schedule pulls from each of `count` scenarios, scenario by scenario. */
  function Selections(body: seq<string>, schedule: seq<nat>, count: nat): (parts: seq<seq<string>>)
    requires |body| == |schedule|
    ensures |parts| == count
  {
    seq(count, i requires 0 <= i < count => Select(body, schedule, i))
  }

  /** Appending a row to one scenario's part appends it to the flattened rows, as a multiset. */
  lemma {:induction false} FlattenAppend(parts: seq<seq<string>>, x: nat, row: string)
    requires x < |parts|
    ensures multiset(Flatten(parts[x := parts[x] + [row]])) == multiset(Flatten(parts)) + multiset{row}
    decreases |parts|
  {
    var m := |parts| - 1;
    var updated := parts[x := parts[x] + [row]];
    assert updated[..m] == if x == m then parts[..m] else parts[..m][x := parts[x] + [row]];
    if x < m {
      FlattenAppend(parts[..m], x, row);
    }
  }

  /** Appending a step adds its row to the part of the scenario it names. */
  lemma SelectionsSnoc(body: seq<string>, schedule: seq<nat>, row: string, x: nat, count: nat)
    requires |body| == |schedule| && x < count
    ensures Selections(body + [row], schedule + [x], count)
         == Selections(body, schedule, count)[x := Selections(body, schedule, count)[x] + [row]]
  {
    forall i | 0 <= i < count
      ensures Selections(body + [row], schedule + [x], count)[i]
           == Selections(body, schedule, count)[x := Selections(body, schedule, count)[x] + [row]][i]
    {
      SelectSnoc(body, schedule, row, x, i);
    }
  }

  /** When every step names one of the first `count` scenarios, the parts split the body. */
  lemma {:induction false} SelectionsSplit(body: seq<string>, schedule: seq<nat>, count: nat)
    requires |body| == |schedule|
    requires forall k :: 0 <= k < |schedule| ==> schedule[k] < count
    ensures multiset(Flatten(Selections(body, schedule, count))) == multiset(body)
    decreases |body|
  {
    if body == [] {
      FlattenEmpty(Selections(body, schedule, count));
    } else {
      var m := |body| - 1;
      var b, s: seq<nat> := body[..m], schedule[..m];
      SelectionsSplit(b, s, count);
      assert body == b + [body[m]] && schedule == s + [schedule[m]];
      SelectionsSnoc(b, s, body[m], schedule[m], count);
      FlattenAppend(Selections(b, s, count), schedule[m], body[m]);
    }
  }

  lemma {:induction false} FlattenEmpty(parts: seq<seq<string>>)
    requires forall i :: 0 <= i < |parts| ==> parts[i] == []
    ensures Flatten(parts) == []
    decreases |parts|
  {
    if parts != [] {
      FlattenEmpty(parts[..|parts| - 1]);
    }
  }

  /** The output body holds exactly the rows of all scenarios, as a multiset. */
  lemma InterleaveKeepsRows(scenarios: seq<seq<string>>, schedule: seq<nat>, body: seq<string>)
    requires ScheduleFits(scenarios, schedule) && Interleaved(scenarios, schedule, body)
    ensures multiset(body) == multiset(Flatten(scenarios))
  {
    SelectionsSplit(body, schedule, |scenarios|);
    forall i | 0 <= i < |scenarios|
      ensures Selections(body, schedule, |scenarios|)[i] == scenarios[i]
    {
      InterleavePreservesOrder(scenarios, schedule, body, i);
    }
    assert Selections(body, schedule, |scenarios|) == scenarios;
  }
}
