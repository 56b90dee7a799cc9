/** Day 2: steering the submarine. A position is folded over a list of moves
    under two interpretations: in part 1 up/down change the depth, in part 2
    they change the aim and a forward move dives by the aim. */
module Dive {
  import opened Wrappers

  datatype Move = Up(amount: nat) | Down(amount: nat) | Forward(amount: nat)

  /** All three fields are unsigned in the program. */
  datatype Position = Position(depth: nat, forward: nat, aim: nat)

  /** The default position all folds start from. */
  const Start := Position(0, 0, 0)

  /** Part 1 subtracts from the unsigned depth, which must not underflow. */
  predicate CanMove1(p: Position, m: Move)
  {
    m.Up? ==> m.amount <= p.depth
  }

  /** Part 2 subtracts from the unsigned aim, which must not underflow. */
  predicate CanMove2(p: Position, m: Move)
  {
    m.Up? ==> m.amount <= p.aim
  }

  function Part1Move(p: Position, m: Move): (r: Position)
    requires CanMove1(p, m)
    ensures r.aim == p.aim
    ensures r.depth + (if m.Up? then m.amount else 0) == p.depth + (if m.Down? then m.amount else 0)
    ensures r.forward == p.forward + (if m.Forward? then m.amount else 0)
  {
    match m
    case Up(n) => Position(p.depth - n, p.forward, p.aim)
    case Down(n) => Position(p.depth + n, p.forward, p.aim)
    case Forward(n) => Position(p.depth, p.forward + n, p.aim)
  }

  function Part2Move(p: Position, m: Move): (r: Position)
    requires CanMove2(p, m)
    ensures r.aim + (if m.Up? then m.amount else 0) == p.aim + (if m.Down? then m.amount else 0)
    ensures r.forward == p.forward + (if m.Forward? then m.amount else 0)
    ensures r.depth == p.depth + (if m.Forward? then m.amount * p.aim else 0)
  {
    match m
    case Up(n) => Position(p.depth, p.forward, p.aim - n)
    case Down(n) => Position(p.depth, p.forward, p.aim + n)
    case Forward(n) => Position(p.depth + n * p.aim, p.forward + n, p.aim)
  }

  /** The part 1 fold; `None` when some move would underflow the depth. */
  function Run1(p: Position, moves: seq<Move>): Option<Position>
    decreases moves
  {
    if moves == [] then Some(p)
    else if !CanMove1(p, moves[0]) then None
    else Run1(Part1Move(p, moves[0]), moves[1..])
  }

  /** The part 2 fold; `None` when some move would underflow the aim. */
  function Run2(p: Position, moves: seq<Move>): Option<Position>
    decreases moves
  {
    if moves == [] then Some(p)
    else if !CanMove2(p, moves[0]) then None
    else Run2(Part2Move(p, moves[0]), moves[1..])
  }

  /** The sum of the amounts of the forward moves. */
  function TotalForward(moves: seq<Move>): nat
  {
    if moves == [] then 0
    else (if moves[0].Forward? then moves[0].amount else 0) + TotalForward(moves[1..])
  }

  /** Downs minus ups: the signed vertical displacement in part 1. */
  function NetDescent(moves: seq<Move>): int
  {
    if moves == [] then 0
    else (match moves[0]
          case Up(n) => -(n as int)
          case Down(n) => n
          case Forward(_) => 0) + NetDescent(moves[1..])
  }

  /** The driver: both positions are stepped by every move in order, and the
      answers are depth times forward distance. */
  method Navigate(moves: seq<Move>) returns (part1: nat, part2: nat)
    requires Run1(Start, moves).Some? && Run2(Start, moves).Some?
    ensures part1 == Run1(Start, moves).value.depth * Run1(Start, moves).value.forward
    ensures part2 == Run2(Start, moves).value.depth * Run2(Start, moves).value.forward
  {
    var p1 := Start;
    var p2 := Start;
    for i := 0 to |moves|
      invariant Run1(p1, moves[i..]) == Run1(Start, moves)
      invariant Run2(p2, moves[i..]) == Run2(Start, moves)
    {
      assert moves[i..][1..] == moves[i + 1..];
      p1 := Part1Move(p1, moves[i]);
      p2 := Part2Move(p2, moves[i]);
    }
    part1 := p1.depth * p1.forward;
    part2 := p2.depth * p2.forward;
  }

  /** Part 2 steers the aim exactly as part 1 steers the depth: the two folds
      underflow on the same inputs, agree on the forward distance, and the
      final aim of part 2 is the final depth of part 1. */
  lemma {:induction false} AimTracksDepth(p1: Position, p2: Position, moves: seq<Move>)
    requires p1.depth == p2.aim && p1.forward == p2.forward
    ensures Run1(p1, moves).Some? <==> Run2(p2, moves).Some?
    ensures Run1(p1, moves).Some? ==>
              Run1(p1, moves).value.depth == Run2(p2, moves).value.aim &&
              Run1(p1, moves).value.forward == Run2(p2, moves).value.forward
    decreases moves
  {
    if moves != [] && CanMove1(p1, moves[0]) {
      AimTracksDepth(Part1Move(p1, moves[0]), Part2Move(p2, moves[0]), moves[1..]);
    }
  }

  /** Part 1 in closed form: it succeeds exactly when no prefix of the moves
      rises above the surface, and then ends at the net descent and the total
      forward distance, with the aim untouched. */
  lemma {:induction false} Run1ClosedForm(p: Position, moves: seq<Move>)
    ensures Run1(p, moves).Some? <==>
              forall k :: 0 <= k <= |moves| ==> p.depth + NetDescent(moves[..k]) >= 0
    ensures Run1(p, moves).Some? ==>
              Run1(p, moves).value.depth == p.depth + NetDescent(moves) &&
              Run1(p, moves).value.forward == p.forward + TotalForward(moves) &&
              Run1(p, moves).value.aim == p.aim
    decreases moves
  {
    if moves == [] {
      assert moves[..0] == [];
    } else {
      var m := moves[0];
      var step: int := match m case Up(n) => -(n as int) case Down(n) => n case Forward(_) => 0;
      assert moves[..1] == [m];
      assert NetDescent([m]) == step by { assert [m][1..] == []; }
      forall k | 1 <= k <= |moves|
        ensures NetDescent(moves[..k]) == step + NetDescent(moves[1..][..k - 1])
      {
        assert moves[..k][1..] == moves[1..][..k - 1];
      }
      if CanMove1(p, m) {
        var q := Part1Move(p, m);
        Run1ClosedForm(q, moves[1..]);
        assert q.depth == p.depth + step;
        assert moves[..0] == [];
        if Run1(q, moves[1..]).Some? {
          forall k | 0 <= k <= |moves| ensures p.depth + NetDescent(moves[..k]) >= 0 {
            if k > 0 {
              assert q.depth + NetDescent(moves[1..][..k - 1]) >= 0;
            }
          }
        } else {
          var j :| 0 <= j <= |moves[1..]| && q.depth + NetDescent(moves[1..][..j]) < 0;
          assert p.depth + NetDescent(moves[..j + 1]) < 0;
        }
      } else {
        assert p.depth + NetDescent(moves[..1]) < 0;
      }
    }
  }
}
