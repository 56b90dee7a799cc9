/** Day 6: lanternfish. Fish are counted by the number of days left before
    they spawn, in nine buckets 0..8. Each day the bucket-0 fish spawn: they
    go back to bucket 6 and their children enter bucket 8, while every other
    fish moves one bucket down. */
module Lanternfish {

  /** The number of days the program simulates. */
  const Days: nat := 256

  /** The number of buckets: timers 0 through 8. */
  const Buckets: nat := 9

  function Sum(s: seq<nat>): nat
  {
    if s == [] then 0 else s[0] + Sum(s[1..])
  }

  /** The number of fish in the input whose timer is t. */
  function Occurrences(input: seq<nat>, t: nat): nat
  {
    multiset(input)[t]
  }

  /** The initial buckets: bucket t counts the input fish whose timer is t. */
  function Initial(input: seq<nat>): (r: seq<nat>)
    ensures |r| == Buckets
  {
    seq(Buckets, t requires 0 <= t < Buckets => Occurrences(input, t))
  }

  /** One day on the bucket queue: pop the spawning bucket off the front,
      add it to the parents' bucket 6, and push it back as the children. */
  function Step(b: seq<nat>): (r: seq<nat>)
    requires |b| == Buckets
    ensures |r| == Buckets
  {
    b[1..][6 := b[7] + b[0]] + [b[0]]
  }

  /** The buckets after n days. */
  function Iterate(b: seq<nat>, n: nat): (r: seq<nat>)
    requires |b| == Buckets
    ensures |r| == Buckets
  {
    if n == 0 then b else Step(Iterate(b, n - 1))
  }

  /** The initial buckets: bucket t counts the input values equal to t. A
      value of 9 or more indexes past the queue, which the program panics on. */
  method Tally(input: seq<nat>) returns (buckets: seq<nat>)
    requires forall k :: 0 <= k < |input| ==> input[k] < Buckets
    ensures buckets == Initial(input)
    ensures Sum(buckets) == |input|
  {
    buckets := seq(Buckets, _ => 0);
    SumZeros(Buckets);
    for i := 0 to |input|
      invariant |buckets| == Buckets
      invariant forall t :: 0 <= t < Buckets ==> buckets[t] == Occurrences(input[..i], t)
      invariant Sum(buckets) == i
    {
      assert input[..i + 1] == input[..i] + [input[i]];
      SumUpdate(buckets, input[i], buckets[input[i]] + 1);
      buckets := buckets[input[i] := buckets[input[i]] + 1];
    }
    assert input[..|input|] == input;
    assert buckets == Initial(input);
  }

  /** The daily loop: pop_front, an add to index 6 and push_back on the
      queue of buckets, recording the population after each day. */
  method Simulate(initial: seq<nat>, days: nat) returns (buckets: seq<nat>, populations: seq<nat>)
    requires |initial| == Buckets
    ensures buckets == Iterate(initial, days)
    ensures |populations| == days
    ensures forall n :: 0 <= n < days ==> populations[n] == Sum(Iterate(initial, n + 1))
  {
    buckets := initial;
    populations := [];
    for n := 0 to days
      invariant |buckets| == Buckets
      invariant buckets == Iterate(initial, n)
      invariant |populations| == n
      invariant forall m :: 0 <= m < n ==> populations[m] == Sum(Iterate(initial, m + 1))
    {
      var spawningNow := buckets[0];
      buckets := buckets[1..];
      buckets := buckets[6 := buckets[6] + spawningNow];
      buckets := buckets + [spawningNow];
      populations := populations + [Sum(buckets)];
    }
  }

  /** The whole program on its parsed input: tally, then the fixed number of days. */
  method Run(input: seq<nat>) returns (populations: seq<nat>)
    requires forall k :: 0 <= k < |input| ==> input[k] < Buckets
    ensures |populations| == Days
    ensures forall n :: 0 <= n < Days ==> populations[n] == Sum(Iterate(Initial(input), n + 1))
    ensures forall n :: 0 <= n < Days ==> populations[n] >= |input|
    ensures forall n, m :: 0 <= n <= m < Days ==> populations[n] <= populations[m]
  {
    var initial := Tally(input);
    var final;
    final, populations := Simulate(initial, Days);
    forall n, m | 0 <= n <= m < Days ensures populations[n] <= populations[m] {
      PopulationGrows(initial, n + 1, m + 1);
    }
    forall n | 0 <= n < Days ensures populations[n] >= |input| {
      PopulationGrows(initial, 0, n + 1);
    }
  }

  // ---------------------------------------------------------------------------
  // Properties

  lemma {:induction false} SumZeros(n: nat)
    ensures Sum(seq(n, _ => 0)) == 0
  {
    if n > 0 {
      assert seq(n, _ => 0)[1..] == seq(n - 1, _ => 0);
      SumZeros(n - 1);
    }
  }

  /** Replacing one element changes the sum by the difference. */
  lemma {:induction false} SumUpdate(s: seq<nat>, i: nat, v: nat)
    requires i < |s|
    ensures Sum(s[i := v]) + s[i] == Sum(s) + v
  {
    if i > 0 {
      assert s[i := v][1..] == s[1..][i - 1 := v];
      SumUpdate(s[1..], i - 1, v);
    }
  }

  lemma {:induction false} SumAppend(s: seq<nat>, x: nat)
    ensures Sum(s + [x]) == Sum(s) + x
  {
    if s != [] {
      assert (s + [x])[1..] == s[1..] + [x];
      SumAppend(s[1..], x);
    }
  }

  /** A day adds exactly the spawning fish to the population. */
  lemma StepPopulation(b: seq<nat>)
    requires |b| == Buckets
    ensures Sum(Step(b)) == Sum(b) + b[0]
  {
    assert b == [b[0]] + b[1..];
    SpawnSum(b[1..], b[0]);
  }

  /** One day bucket by bucket: every timer but 6 takes over the next
      bucket up, 6 gets the fish from 7 and the spawning parents, and 8 the
      newborn children. */
  lemma StepBuckets(b: seq<nat>)
    requires |b| == Buckets
    ensures var r := Step(b);
            && (forall i :: 0 <= i < 8 && i != 6 ==> r[i] == b[i + 1])
            && r[6] == b[7] + b[0] && r[8] == b[0]
  {
  }

  /** Adding x spawning fish as parents and as children adds 2x. */
  lemma SpawnSum(rest: seq<nat>, x: nat)
    requires 6 < |rest|
    ensures Sum([x] + rest) == Sum(rest) + x
    ensures Sum(rest[6 := rest[6] + x] + [x]) == Sum(rest) + 2 * x
  {
    assert ([x] + rest)[1..] == rest;
    SumUpdate(rest, 6, rest[6] + x);
    SumAppend(rest[6 := rest[6] + x], x);
  }

  /** The population never decreases from one day to a later one. */
  lemma {:induction false} PopulationGrows(b: seq<nat>, n: nat, m: nat)
    requires |b| == Buckets && n <= m
    ensures Sum(Iterate(b, n)) <= Sum(Iterate(b, m))
    decreases m
  {
    if n < m {
      PopulationGrows(b, n, m - 1);
      StepPopulation(Iterate(b, m - 1));
    }
  }
}
