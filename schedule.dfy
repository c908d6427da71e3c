/**
 * `build_schedule` from tests/scenarios/mod.rs: the list that names every scenario once per
 * row, in scenario order, shuffled in place by Fisher-Yates with a 64-bit linear congruential
 * generator. A scenario is its sequence of rows, as in `Scenarios`.
 */
module Schedules {
  import opened Scenarios

  /** The generator's constants and its 64-bit state. */
  const Multiplier: nat := 6364136223846793005
  const Increment: nat := 1442695040888963407
  const Modulus: nat := 0x1_0000_0000_0000_0000
  type U64 = x: int | 0 <= x < 0x1_0000_0000_0000_0000

  /** `rng.wrapping_mul(Multiplier).wrapping_add(Increment)`: both operations wrap at 2^64. */
  function LcgStep(r: U64): (next: U64)
    ensures next == (r * Multiplier + Increment) % Modulus
  {
    var product := (r * Multiplier) % Modulus;
    WrapAdd(r * Multiplier, Increment);
    (product + Increment) % Modulus
  }

  /** Reducing at 2^64 before an addition does not change the reduced sum. */
  lemma WrapAdd(x: int, y: int)
    ensures (x % Modulus + y) % Modulus == (x + y) % Modulus
  {
  }

  /**
   * `(rng >> 33) as usize % (i + 1)`: the high 31 bits of the state, reduced to `0 ..= i`. They
   * are below 2^31, so the cast to `usize` keeps them whatever its width.
   */
  function SwapIndex(r: U64, i: nat): (j: nat)
    ensures j <= i
  {
    (r / 0x2_0000_0000) % (i + 1)
  }

  /** `repeat_n(c, m)`: `m` copies of `c`. */
  function Copies(c: nat, m: nat): (s: seq<nat>)
    ensures |s| == m
    ensures forall k :: 0 <= k < |s| ==> s[k] == c
    decreases m
  {
    if m == 0 then [] else Copies(c, m - 1) + [c]
  }

  /** The unshuffled list: scenario `i` repeated once per row, scenario after scenario. */
  function Repeats(scenarios: seq<seq<string>>): (s: seq<nat>)
    ensures forall k :: 0 <= k < |s| ==> s[k] < |scenarios|
    decreases |scenarios|
  {
    if scenarios == [] then []
    else
      var n := |scenarios| - 1;
      Repeats(scenarios[..n]) + Copies(n, |scenarios[n]|)
  }

  /** `schedule.swap(i, j)`. */
  function Swap(s: seq<nat>, i: nat, j: nat): (t: seq<nat>)
    requires i < |s| && j < |s|
    ensures |t| == |s| && t[i] == s[j] && t[j] == s[i]
    ensures forall k :: 0 <= k < |s| && k != i && k != j ==> t[k] == s[k]
  {
    s[i := s[j]][j := s[i]]
  }

  /**
   * The iterations `i = n-1, ..., 1` of the shuffle loop, from the state `rng`: each step advances
   * the generator and swaps position `i` with a position at or before it.
   */
  function ShuffleDown(s: seq<nat>, rng: U64, n: nat): (t: seq<nat>)
    requires n <= |s|
    ensures |t| == |s|
    ensures forall k :: n <= k < |s| ==> t[k] == s[k]
    decreases n
  {
    if n <= 1 then s
    else
      var next := LcgStep(rng);
      ShuffleDown(Swap(s, n - 1, SwapIndex(next, n - 1)), next, n - 1)
  }

  /** The whole shuffle of `s` seeded with `seed`. */
  function Shuffled(s: seq<nat>, seed: U64): (t: seq<nat>)
    ensures |t| == |s|
  {
    ShuffleDown(s, seed, |s|)
  }

  /**
   * `build_schedule`: collects the repeated indices into a buffer and shuffles it in place.
   * The result names every scenario exactly once per row, so it fits the scenarios.
   */
  method BuildSchedule(scenarios: seq<seq<string>>, seed: U64) returns (schedule: seq<nat>)
    ensures schedule == Shuffled(Repeats(scenarios), seed)
    ensures |schedule| == |Flatten(scenarios)|
    ensures ScheduleFits(scenarios, schedule)
  {
    var flat := Repeats(scenarios);
    var a := new nat[|flat|](k requires 0 <= k < |flat| => flat[k]);
    assert a[..] == flat;
    Shuffle(a, seed);
    schedule := a[..];
    ShuffleFits(scenarios, seed);
  }

  /** The Fisher-Yates loop of `build_schedule`, on the buffer in place. */
  method Shuffle(a: array<nat>, seed: U64)
    modifies a
    ensures a[..] == Shuffled(old(a[..]), seed)
  {
    ghost var start := a[..];
    var rng := seed;
    var n := a.Length;
    while n > 1
      invariant 0 <= n <= a.Length
      invariant ShuffleDown(a[..], rng, n) == Shuffled(start, seed)
      decreases n
    {
      ghost var before := a[..];
      rng := LcgStep(rng);
      var i, j := n - 1, SwapIndex(rng, n - 1);
      a[i], a[j] := a[j], a[i];
      assert a[..] == Swap(before, i, j);
      n := n - 1;
    }
  }

  /** `Copies(c, m)` holds `m` copies of `c` and nothing else. */
  lemma {:induction false} CopiesCount(c: nat, m: nat, x: nat)
    ensures |Copies(c, m)| == m
    ensures forall k :: 0 <= k < m ==> Copies(c, m)[k] == c
    ensures multiset(Copies(c, m))[x] == if x == c then m else 0
    decreases m
  {
    if m > 0 {
      CopiesCount(c, m - 1, x);
    }
  }

  /** The unshuffled list has one entry per row of the scenarios. */
  lemma {:induction false} RepeatsLength(scenarios: seq<seq<string>>)
    ensures |Repeats(scenarios)| == |Flatten(scenarios)|
    decreases |scenarios|
  {
    if scenarios != [] {
      RepeatsLength(scenarios[..|scenarios| - 1]);
      CopiesCount(|scenarios| - 1, |scenarios[|scenarios| - 1]|, 0);
    }
  }

  /** The unshuffled list names only existing scenarios, in ascending order. */
  lemma {:induction false} RepeatsAscending(scenarios: seq<seq<string>>)
    ensures forall k :: 0 <= k < |Repeats(scenarios)| ==> Repeats(scenarios)[k] < |scenarios|
    ensures forall k, l :: 0 <= k <= l < |Repeats(scenarios)| ==> Repeats(scenarios)[k] <= Repeats(scenarios)[l]
    decreases |scenarios|
  {
    if scenarios != [] {
      var n := |scenarios| - 1;
      var prefix: seq<nat>, tail: seq<nat> := Repeats(scenarios[..n]), Copies(n, |scenarios[n]|);
      RepeatsAscending(scenarios[..n]);
      CopiesCount(n, |scenarios[n]|, 0);
      assert Repeats(scenarios) == prefix + tail;
      assert forall k :: 0 <= k < |prefix| ==> prefix[k] < n;
    }
  }

  /** The unshuffled list names scenario `x` once per row of it, and no other index. */
  lemma {:induction false} RepeatsCount(scenarios: seq<seq<string>>, x: nat)
    ensures multiset(Repeats(scenarios))[x] == if x < |scenarios| then |scenarios[x]| else 0
    decreases |scenarios|
  {
    if scenarios != [] {
      var n := |scenarios| - 1;
      var prefix: seq<nat>, tail: seq<nat> := Repeats(scenarios[..n]), Copies(n, |scenarios[n]|);
      RepeatsCount(scenarios[..n], x);
      CopiesCount(n, |scenarios[n]|, x);
      assert Repeats(scenarios) == prefix + tail;
      assert multiset(Repeats(scenarios))[x] == multiset(prefix)[x] + multiset(tail)[x];
      if x < n {
        assert scenarios[..n][x] == scenarios[x];
      }
    }
  }

  /** A swap reorders the list and keeps its contents. */
  lemma SwapPermutes(s: seq<nat>, i: nat, j: nat)
    requires i < |s| && j < |s|
    ensures multiset(Swap(s, i, j)) == multiset(s)
  {
    var t := s[i := s[j]];
    assert multiset(t) == multiset(s) - multiset{s[i]} + multiset{s[j]};
    assert multiset(t[j := s[i]]) == multiset(t) - multiset{t[j]} + multiset{s[i]};
  }

  /** The shuffle is a permutation of its input. */
  lemma {:induction false} ShufflePermutes(s: seq<nat>, rng: U64, n: nat)
    requires n <= |s|
    ensures |ShuffleDown(s, rng, n)| == |s|
    ensures multiset(ShuffleDown(s, rng, n)) == multiset(s)
    decreases n
  {
    if n > 1 {
      var next := LcgStep(rng);
      var t := Swap(s, n - 1, SwapIndex(next, n - 1));
      SwapPermutes(s, n - 1, SwapIndex(next, n - 1));
      ShufflePermutes(t, next, n - 1);
    }
  }

  /** The shuffled list fits the scenarios whatever the seed: `interleave` accepts it. */
  lemma ShuffleFits(scenarios: seq<seq<string>>, seed: U64)
    ensures |Shuffled(Repeats(scenarios), seed)| == |Flatten(scenarios)|
    ensures ScheduleFits(scenarios, Shuffled(Repeats(scenarios), seed))
  {
    var flat: seq<nat> := Repeats(scenarios);
    var out: seq<nat> := Shuffled(flat, seed);
    RepeatsLength(scenarios);
    RepeatsAscending(scenarios);
    forall i: nat | i < |scenarios|
      ensures multiset(flat)[i] == |scenarios[i]|
    {
      RepeatsCount(scenarios, i);
    }
    ShufflePermutes(flat, seed, |flat|);
    forall k | 0 <= k < |out|
      ensures out[k] < |scenarios|
    {
      assert out[k] in multiset(flat);
    }
  }

  /** With a single scenario every entry of the schedule is 0, whatever the seed. */
  lemma SingleScenario(rows: seq<string>, seed: U64)
    ensures Shuffled(Repeats([rows]), seed) == seq(|rows|, _ => 0)
  {
    var out := Shuffled(Repeats([rows]), seed);
    ShuffleFits([rows], seed);
    assert [rows][..0] == [];
    forall k | 0 <= k < |out|
      ensures out[k] == 0
    {
    }
  }
}
