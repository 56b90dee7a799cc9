/** Day 7: crab alignment. Every crab moves horizontally to a common target
    position; the fuel for a distance d is d at the linear rate, and
    1 + 2 + ... + d = d(d + 1)/2 at the triangular rate. The answer is the
    lowest total fuel over a range of candidate targets. */
module Crabs {

  datatype Rate = Linear | Triangular

  function Abs(x: int): nat
  {
    if x < 0 then -x else x
  }

  /** The fuel for moving d steps, using the closed form of the triangular rate. */
  function StepCost(rate: Rate, d: nat): nat
  {
    match rate
    case Linear => d
    case Triangular => d * (d + 1) / 2
  }

  /** Reference definition of the triangular rate: the k-th step costs k. */
  function Triangle(d: nat): nat
  {
    if d == 0 then 0 else Triangle(d - 1) + d
  }

  /** The total fuel for all crabs to reach target. */
  function Cost(rate: Rate, positions: seq<int>, target: int): nat
  {
    if positions == [] then 0
    else Cost(rate, positions[..|positions| - 1], target)
         + StepCost(rate, Abs(positions[|positions| - 1] - target))
  }

  /** The largest starting position. */
  function MaxOf(positions: seq<int>): (m: int)
    requires |positions| > 0
    ensures forall k :: 0 <= k < |positions| ==> positions[k] <= m
    ensures exists k :: 0 <= k < |positions| && positions[k] == m
  {
    if |positions| == 1 then positions[0]
    else
      var m := MaxOf(positions[..|positions| - 1]);
      var last := positions[|positions| - 1];
      if m < last then last else m
  }

  /** The minimum of the costs of the targets 0, 1, ..., n - 1 (the minimum
      of an empty range is a panic, hence n > 0). */
  function LowestCost(rate: Rate, positions: seq<int>, n: nat): (r: nat)
    requires n > 0
    ensures forall t :: 0 <= t < n ==> r <= Cost(rate, positions, t)
    ensures exists t :: 0 <= t < n && r == Cost(rate, positions, t)
  {
    if n == 1 then Cost(rate, positions, 0)
    else
      var lower := LowestCost(rate, positions, n - 1);
      var last := Cost(rate, positions, n - 1);
      if last < lower then last else lower
  }

  /** What the program computes: the lowest cost over the half-open range
      0..max of targets, which leaves out max itself. */
  function LowestCostAsWritten(rate: Rate, positions: seq<int>): (r: nat)
    requires |positions| > 0 && MaxOf(positions) > 0
    ensures forall t :: 0 <= t < MaxOf(positions) ==> r <= Cost(rate, positions, t)
    ensures exists t :: 0 <= t < MaxOf(positions) && r == Cost(rate, positions, t)
  {
    LowestCost(rate, positions, MaxOf(positions))
  }

  /** The lowest cost over the closed range 0..=max of targets. */
  function LowestCostCorrected(rate: Rate, positions: seq<int>): (r: nat)
    requires |positions| > 0 && MaxOf(positions) >= 0
    ensures forall t :: 0 <= t <= MaxOf(positions) ==> r <= Cost(rate, positions, t)
    ensures exists t :: 0 <= t <= MaxOf(positions) && r == Cost(rate, positions, t)
  {
    LowestCost(rate, positions, MaxOf(positions) + 1)
  }

  /** Both answers, over the corrected range of targets: the lowest linear
      and the lowest triangular cost, the second never below the first. */
  function Answers(positions: seq<int>): (r: (nat, nat))
    requires |positions| > 0 && MaxOf(positions) >= 0
    ensures r.0 <= r.1
    ensures forall t :: 0 <= t <= MaxOf(positions) ==> r.0 <= Cost(Linear, positions, t)
    ensures forall t :: 0 <= t <= MaxOf(positions) ==> r.1 <= Cost(Triangular, positions, t)
    ensures exists t :: 0 <= t <= MaxOf(positions) && r.0 == Cost(Linear, positions, t)
    ensures exists t :: 0 <= t <= MaxOf(positions) && r.1 == Cost(Triangular, positions, t)
  {
    LowestTriangularAtLeastLinear(positions, MaxOf(positions) + 1);
    (LowestCostCorrected(Linear, positions), LowestCostCorrected(Triangular, positions))
  }

  // ---------------------------------------------------------------------------
  // Properties

  /** The closed form d(d + 1)/2 is the sum 1 + 2 + ... + d. */
  lemma {:induction false} TriangleClosedForm(d: nat)
    ensures StepCost(Triangular, d) == Triangle(d)
  {
    if d > 0 {
      TriangleClosedForm(d - 1);
      assert d * (d + 1) == (d - 1) * d + 2 * d;
    }
  }

  /** A step of the triangular rate costs at least as much as a linear one. */
  lemma TriangularAtLeastLinear(d: nat)
    ensures StepCost(Triangular, d) >= StepCost(Linear, d)
  {
    TriangleClosedForm(d);
    TriangleBound(d);
  }

  lemma {:induction false} TriangleBound(d: nat)
    ensures Triangle(d) >= d
  {
    if d > 0 {
      TriangleBound(d - 1);
    }
  }

  /** At every target the triangular total is at least the linear total. */
  lemma {:induction false} TriangularCostAtLeastLinear(positions: seq<int>, target: int)
    ensures Cost(Triangular, positions, target) >= Cost(Linear, positions, target)
  {
    if positions != [] {
      TriangularCostAtLeastLinear(positions[..|positions| - 1], target);
      TriangularAtLeastLinear(Abs(positions[|positions| - 1] - target));
    }
  }

  /** So is the lowest triangular cost over the same range of targets. */
  lemma LowestTriangularAtLeastLinear(positions: seq<int>, n: nat)
    requires n > 0
    ensures LowestCost(Triangular, positions, n) >= LowestCost(Linear, positions, n)
  {
    var t :| 0 <= t < n && LowestCost(Triangular, positions, n) == Cost(Triangular, positions, t);
    TriangularCostAtLeastLinear(positions, t);
  }

  /** Fuel grows with the distance at both rates. */
  lemma StepCostMonotone(rate: Rate, d: nat, e: nat)
    requires d <= e
    ensures StepCost(rate, d) <= StepCost(rate, e)
  {
    if rate == Triangular {
      assert d * (d + 1) <= e * (e + 1) by {
        assert d * d <= e * e && d <= e;
      }
    }
  }

  /** With every crab at or right of 0, a target left of 0 costs no less than 0. */
  lemma {:induction false} CostBelowRange(rate: Rate, positions: seq<int>, target: int)
    requires target <= 0
    requires forall k :: 0 <= k < |positions| ==> positions[k] >= 0
    ensures Cost(rate, positions, target) >= Cost(rate, positions, 0)
  {
    if positions != [] {
      var last := positions[|positions| - 1];
      CostBelowRange(rate, positions[..|positions| - 1], target);
      StepCostMonotone(rate, Abs(last - 0), Abs(last - target));
    }
  }

  /** With every crab at or left of m, a target right of m costs no less than m. */
  lemma {:induction false} CostAboveRange(rate: Rate, positions: seq<int>, m: int, target: int)
    requires target >= m
    requires forall k :: 0 <= k < |positions| ==> positions[k] <= m
    ensures Cost(rate, positions, target) >= Cost(rate, positions, m)
  {
    if positions != [] {
      var last := positions[|positions| - 1];
      CostAboveRange(rate, positions[..|positions| - 1], m, target);
      StepCostMonotone(rate, Abs(last - m), Abs(last - target));
    }
  }

  /** For crabs at nonnegative positions the closed range 0..=max holds a
      best target: no integer target at all costs less. */
  lemma CorrectedIsOptimal(rate: Rate, positions: seq<int>, target: int)
    requires |positions| > 0
    requires forall k :: 0 <= k < |positions| ==> positions[k] >= 0
    ensures LowestCostCorrected(rate, positions) <= Cost(rate, positions, target)
  {
    var m := MaxOf(positions);
    var r := LowestCostCorrected(rate, positions);
    assert r <= Cost(rate, positions, 0) && r <= Cost(rate, positions, m);
    if target < 0 {
      CostBelowRange(rate, positions, target);
    } else if target > m {
      CostAboveRange(rate, positions, m, target);
    } else {
      assert r <= Cost(rate, positions, target);
    }
  }

  /** The search range of the program misses the best target when it is
      the largest position: one crab at 3 is reached at no cost by target 3,
      but the program reports 1 (target 2). */
  lemma AsWrittenMissesMax()
    ensures LowestCostAsWritten(Linear, [3]) == 1
    ensures Cost(Linear, [3], 3) == 0
    ensures LowestCostCorrected(Linear, [3]) == 0
  {
    assert MaxOf([3]) == 3;
    assert Cost(Linear, [3], 0) == 3 && Cost(Linear, [3], 1) == 2 && Cost(Linear, [3], 2) == 1;
    assert Cost(Linear, [3], 3) == 0;
  }
}
