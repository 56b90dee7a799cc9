/** Day 1: sonar sweep. Depth readings are compared with their predecessor,
    first one by one and then as sums of three-reading windows. */
module Sonar {
  import opened Wrappers

  /** The sum of the three readings that start at index k. */
  function WindowAt(depths: seq<nat>, k: nat): nat
    requires k + 2 < |depths|
  {
    depths[k] + depths[k + 1] + depths[k + 2]
  }

  /** Reference definition: the number of neighbouring pairs whose later
      element is strictly greater, counted from the back. */
  function Increases(s: seq<int>): nat
  {
    if |s| < 2 then 0
    else Increases(s[..|s| - 1]) + (if s[|s| - 2] < s[|s| - 1] then 1 else 0)
  }

  /** The indices i >= 1 at which the reading is strictly deeper than at i - 1. */
  function DeeperIndices(s: seq<int>): set<nat>
  {
    set i: nat | 1 <= i < |s| && DeeperAt(s, i)
  }

  predicate DeeperAt(s: seq<int>, i: nat)
    requires 1 <= i < |s|
  {
    s[i - 1] < s[i]
  }

  /** Indices k whose reading is exceeded by the reading three places later. */
  function GainIndices(depths: seq<nat>): set<nat>
  {
    set k: nat | k + 3 < |depths| && GainsAt(depths, k)
  }

  predicate GainsAt(depths: seq<nat>, k: nat)
    requires k + 3 < |depths|
  {
    depths[k] < depths[k + 3]
  }

  /** The window sums, collected by pushing one sum per interior index
      (the loop runs over 1 .. len - 1, so an input of length 0 underflows). */
  method WindowDepths(depths: seq<nat>) returns (windows: seq<nat>)
    requires |depths| >= 1
    ensures |windows| == if |depths| <= 2 then 0 else |depths| - 2
    ensures forall k :: 0 <= k < |windows| ==> windows[k] == WindowAt(depths, k)
  {
    windows := [];
    var i := 1;
    while i < |depths| - 1
      invariant 1 <= i <= if |depths| <= 2 then 1 else |depths| - 1
      invariant |windows| == i - 1
      invariant forall k :: 0 <= k < |windows| ==> windows[k] == WindowAt(depths, k)
    {
      windows := windows + [depths[i - 1] + depths[i] + depths[i + 1]];
      i := i + 1;
    }
  }

  /** The deepening count: each reading is compared with the one before it,
      the first reading having no predecessor. */
  method Deepenings(depths: seq<int>) returns (deepenings: nat)
    ensures deepenings == Increases(depths)
  {
    deepenings := 0;
    var previous: Option<int> := None;
    for i := 0 to |depths|
      invariant previous == if i == 0 then None else Some(depths[i - 1])
      invariant deepenings == Increases(depths[..i])
    {
      assert depths[..i + 1][..i] == depths[..i];
      if previous.Some? {
        if previous.value < depths[i] {
          deepenings := deepenings + 1;
        }
      }
      previous := Some(depths[i]);
    }
    assert depths[..|depths|] == depths;
  }

  /** Both answers: deepenings of the single readings and of the window sums. */
  method Solve(depths: seq<nat>) returns (part1: nat, part2: nat)
    requires |depths| >= 1
    ensures part1 == |DeeperIndices(depths)|
    ensures part2 == |GainIndices(depths)|
  {
    var windows := WindowDepths(depths);
    part1 := Deepenings(depths);
    part2 := Deepenings(windows);
    IncreasesCountsDeeperIndices(depths);
    IncreasesCountsDeeperIndices(windows);
    WindowDeeperIndices(depths, windows);
  }

  /** The back-to-front count equals the number of deeper indices. */
  lemma {:induction false} IncreasesCountsDeeperIndices(s: seq<int>)
    ensures Increases(s) == |DeeperIndices(s)|
  {
    if |s| < 2 {
      assert DeeperIndices(s) == {};
    } else {
      var init := s[..|s| - 1];
      IncreasesCountsDeeperIndices(init);
      var n := |s| - 1;
      if s[n - 1] < s[n] {
        assert DeeperIndices(s) == DeeperIndices(init) + {n};
      } else {
        assert DeeperIndices(s) == DeeperIndices(init);
      }
    }
  }

  /** At most one deepening per neighbouring pair, none for fewer than two readings. */
  lemma {:induction false} IncreasesBound(s: seq<int>)
    ensures |s| <= 1 ==> Increases(s) == 0
    ensures |s| >= 1 ==> Increases(s) <= |s| - 1
  {
    if |s| >= 2 {
      IncreasesBound(s[..|s| - 1]);
    }
  }

  /** Two neighbouring windows share two readings, so the later window is
      deeper exactly when the reading it gains exceeds the one it loses. */
  lemma WindowDeeperIndices(depths: seq<nat>, windows: seq<nat>)
    requires |windows| == if |depths| <= 2 then 0 else |depths| - 2
    requires forall k :: 0 <= k < |windows| ==> windows[k] == WindowAt(depths, k)
    ensures |DeeperIndices(windows)| == |GainIndices(depths)|
  {
    var shifted := GainIndices(depths);
    var deeper := DeeperIndices(windows);
    forall i | i in deeper ensures i - 1 in shifted {
      assert windows[i - 1] < windows[i];
    }
    forall k | k in shifted ensures k + 1 in deeper {
      assert windows[k] < windows[k + 1];
    }
    ShiftedSetSize(deeper, shifted);
  }

  /** Two sets of naturals related by the bijection i |-> i - 1 have the same size. */
  lemma {:induction false} ShiftedSetSize(a: set<nat>, b: set<nat>)
    requires forall i :: i in a ==> i >= 1 && i - 1 in b
    requires forall k :: k in b ==> k + 1 in a
    ensures |a| == |b|
    decreases |a|
  {
    if a != {} {
      var i :| i in a;
      ShiftedSetSize(a - {i}, b - {i - 1});
    } else {
      assert b == {};
    }
  }
}
