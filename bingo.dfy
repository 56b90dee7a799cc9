/** Day 4: giant squid bingo. Each board is a 5 x 5 grid of numbered cells
    that are marked as numbers are drawn; a board wins once a whole row or a
    whole column is marked. Cells are also viewed in row-major order, as a
    sequence of 25 cells in which cell (i, j) sits at index 5 * i + j. */
module Bingo {
  import opened Wrappers

  datatype Cell = Cell(number: nat, marked: bool)

  type Grid = s: seq<Cell> | |s| == 25 witness seq(25, _ => Cell(0, false))

  /** Cell (i, j) of a row-major grid. */
  function At(g: Grid, i: nat, j: nat): Cell
    requires i < 5 && j < 5
  {
    g[5 * i + j]
  }

  predicate RowComplete(g: Grid, i: nat)
    requires i < 5
  {
    forall j :: 0 <= j < 5 ==> At(g, i, j).marked
  }

  predicate ColumnComplete(g: Grid, j: nat)
    requires j < 5
  {
    forall i :: 0 <= i < 5 ==> At(g, i, j).marked
  }

  /** A grid wins when some row or some column is fully marked; diagonals do not count. */
  predicate Wins(g: Grid)
  {
    (exists i :: 0 <= i < 5 && RowComplete(g, i)) || (exists j :: 0 <= j < 5 && ColumnComplete(g, j))
  }

  /** Marks the first cell, in order, whose number is t. */
  function MarkFirst(s: seq<Cell>, t: nat): (r: seq<Cell>)
    ensures |r| == |s|
  {
    if s == [] then []
    else if s[0].number == t then [s[0].(marked := true)] + s[1..]
    else [s[0]] + MarkFirst(s[1..], t)
  }

  /** True when the first cell numbered t exists and is still unmarked. */
  predicate FirstHitUnmarked(s: seq<Cell>, t: nat)
  {
    s != [] && if s[0].number == t then !s[0].marked else FirstHitUnmarked(s[1..], t)
  }

  /** The sum of the numbers of the unmarked cells. */
  function UnmarkedSum(s: seq<Cell>): nat
  {
    if s == [] then 0 else (if s[0].marked then 0 else s[0].number) + UnmarkedSum(s[1..])
  }

  /** The sum of all numbers, marked or not. */
  function NumberSum(s: seq<Cell>): nat
  {
    if s == [] then 0 else s[0].number + NumberSum(s[1..])
  }

  class Board {
    const cells: array2<Cell>

    ghost predicate Valid()
    {
      cells.Length0 == 5 && cells.Length1 == 5
    }

    /** Row i of the board. */
    ghost function Row(i: nat): (r: seq<Cell>)
      requires Valid() && i < 5
      reads cells
      ensures |r| == 5 && forall j :: 0 <= j < 5 ==> r[j] == cells[i, j]
    {
      seq(5, j reads cells requires 0 <= j < 5 => cells[i, j])
    }

    /** The board in row-major order. */
    ghost function Cells(): (g: Grid)
      requires Valid()
      reads cells
      ensures forall i, j :: 0 <= i < 5 && 0 <= j < 5 ==> At(g, i, j) == cells[i, j]
    {
      Row(0) + Row(1) + Row(2) + Row(3) + Row(4)
    }

    /** Row-major index k holds the cell at row k / 5, column k % 5. */
    lemma CellAt(k: nat)
      requires Valid() && k < 25
      ensures Cells()[k] == cells[k / 5, k % 5]
    {
      assert At(Cells(), k / 5, k % 5) == cells[k / 5, k % 5];
    }

    /** Board::new on the already split and parsed numbers: line i supplies
        row i, and only the first 5 numbers of each of the first 5 lines are
        used (fewer is a panic). */
    constructor (lines: seq<seq<nat>>)
      requires |lines| >= 5 && forall i :: 0 <= i < 5 ==> |lines[i]| >= 5
      ensures Valid() && fresh(cells)
      ensures forall i, j :: 0 <= i < 5 && 0 <= j < 5 ==> cells[i, j] == Cell(lines[i][j], false)
      ensures UnmarkedSum(Cells()) == NumberSum(Cells())
    {
      var a := new Cell[5, 5];
      for i := 0 to 5
        invariant forall i', j :: 0 <= i' < i && 0 <= j < 5 ==> a[i', j] == Cell(lines[i'][j], false)
      {
        for j := 0 to 5
          invariant forall i', j' :: 0 <= i' < i && 0 <= j' < 5 ==> a[i', j'] == Cell(lines[i'][j'], false)
          invariant forall j' :: 0 <= j' < j ==> a[i, j'] == Cell(lines[i][j'], false)
        {
          a[i, j] := Cell(lines[i][j], false);
        }
      }
      cells := a;
      new;
      forall k | 0 <= k < 25 ensures !Cells()[k].marked {
        CellAt(k);
      }
      AllUnmarkedSum(Cells());
    }

    /** Marks the first cell in row-major order that holds target; nothing
        else changes, and the board is unchanged when target is absent. */
    method Mark(target: nat)
      requires Valid()
      modifies cells
      ensures Cells() == MarkFirst(old(Cells()), target)
    {
      ghost var s := Cells();
      var k := 0;
      while k < 25
        invariant 0 <= k <= 25
        invariant Cells() == s
        invariant forall q :: 0 <= q < k ==> s[q].number != target
      {
        var c := cells[k / 5, k % 5];
        assert c == s[k] by { CellAt(k); }
        if c.number == target {
          cells[k / 5, k % 5] := c.(marked := true);
          MarkFirstAt(s, target, k);
          forall q | 0 <= q < 25 ensures Cells()[q] == s[k := c.(marked := true)][q] {
            CellAt(q);
            assert old(cells[q / 5, q % 5]) == s[q] by { assert At(s, q / 5, q % 5) == old(cells[q / 5, q % 5]); }
          }
          return;
        }
        k := k + 1;
      }
      MarkFirstAbsent(s, target);
    }

    /** Rows are checked first, then columns, each with a flag that the
        first unmarked cell clears. */
    method IsWinning() returns (won: bool)
      requires Valid()
      ensures won == Wins(Cells())
    {
      for i := 0 to 5
        invariant forall i' :: 0 <= i' < i ==> !RowMarked(i')
      {
        var winning := true;
        var j := 0;
        while j < 5
          invariant 0 <= j <= 5
          invariant winning ==> forall j' :: 0 <= j' < j ==> cells[i, j'].marked
          invariant !winning ==> !RowMarked(i)
        {
          if !cells[i, j].marked {
            winning := false;
            break;
          }
          j := j + 1;
        }
        if winning {
          assert RowMarked(i);
          WinningBoard();
          return true;
        }
      }
      for j := 0 to 5
        invariant forall j' :: 0 <= j' < j ==> !ColumnMarked(j')
      {
        var winning := true;
        var i := 0;
        while i < 5
          invariant 0 <= i <= 5
          invariant winning ==> forall i' :: 0 <= i' < i ==> cells[i', j].marked
          invariant !winning ==> !ColumnMarked(j)
        {
          if !cells[i, j].marked {
            winning := false;
            break;
          }
          i := i + 1;
        }
        if winning {
          assert ColumnMarked(j);
          WinningBoard();
          return true;
        }
      }
      WinningBoard();
      return false;
    }

    ghost predicate RowMarked(i: nat)
      requires Valid() && i < 5
      reads cells
    {
      forall j :: 0 <= j < 5 ==> cells[i, j].marked
    }

    ghost predicate ColumnMarked(j: nat)
      requires Valid() && j < 5
      reads cells
    {
      forall i :: 0 <= i < 5 ==> cells[i, j].marked
    }

    /** Wins on the row-major view is a complete row or column of the array. */
    lemma WinningBoard()
      requires Valid()
      ensures Wins(Cells()) <==> (exists i :: 0 <= i < 5 && RowMarked(i)) || (exists j :: 0 <= j < 5 && ColumnMarked(j))
    {
      var g := Cells();
      forall i | 0 <= i < 5 ensures RowComplete(g, i) <==> RowMarked(i) {
      }
      forall j | 0 <= j < 5 ensures ColumnComplete(g, j) <==> ColumnMarked(j) {
      }
    }

    /** The unmarked sum of the cells from row-major index k on. */
    function UnmarkedFrom(k: nat): (n: nat)
      requires Valid() && k <= 25
      reads cells
      ensures n == UnmarkedSum(Cells()[k..])
      decreases 25 - k
    {
      if k == 25 then 0
      else
        var c := cells[k / 5, k % 5];
        assert Cells()[k..][1..] == Cells()[k + 1..];
        assert c == Cells()[k] by { CellAt(k); }
        (if c.marked then 0 else c.number) + UnmarkedFrom(k + 1)
    }

    function SumOfUnmarked(): (n: nat)
      requires Valid()
      reads cells
      ensures n == UnmarkedSum(Cells())
    {
      assert Cells()[0..] == Cells();
      UnmarkedFrom(0)
    }
  }

  // ---------------------------------------------------------------------------
  // The game

  /** The state of all boards after a draw, and the score if a board won. */
  datatype Outcome = Outcome(grids: seq<Grid>, score: Option<nat>)

  /** One draw, from board j on: the board is marked, and the round stops
      at the first board that is then winning, scoring its unmarked sum
      times the draw. */
  function PlayDraw(gs: seq<Grid>, draw: nat, j: nat): (r: Outcome)
    requires j <= |gs|
    ensures |r.grids| == |gs|
    decreases |gs| - j
  {
    if j == |gs| then Outcome(gs, None)
    else
      var g: Grid := MarkFirst(gs[j], draw);
      if Wins(g) then Outcome(gs[j := g], Some(UnmarkedSum(g) * draw))
      else PlayDraw(gs[j := g], draw, j + 1)
  }

  /** The whole game: draws in order, boards in order within a draw. */
  function Play(gs: seq<Grid>, draws: seq<nat>): (r: Outcome)
    ensures |r.grids| == |gs|
    decreases draws
  {
    if draws == [] then Outcome(gs, None)
    else
      var r := PlayDraw(gs, draws[0], 0);
      if r.score.Some? then r else Play(r.grids, draws[1..])
  }

  ghost function Grids(boards: seq<Board>): (gs: seq<Grid>)
    requires forall b :: b in boards ==> b.Valid()
    reads set b | b in boards :: b.cells
    ensures |gs| == |boards| && forall k :: 0 <= k < |boards| ==> gs[k] == boards[k].Cells()
  {
    if boards == [] then [] else [boards[0].Cells()] + Grids(boards[1..])
  }

  /** Marks board j; the other boards, whose arrays are distinct, keep their cells. */
  method MarkBoard(boards: seq<Board>, j: nat, draw: nat)
    requires j < |boards| && forall b :: b in boards ==> b.Valid()
    requires forall p, q :: 0 <= p < q < |boards| ==> boards[p].cells != boards[q].cells
    modifies boards[j].cells
    ensures Grids(boards) == old(Grids(boards))[j := MarkFirst(old(Grids(boards))[j], draw)]
  {
    ghost var before := Grids(boards);
    boards[j].Mark(draw);
    ghost var after := before[j := MarkFirst(before[j], draw)];
    forall k | 0 <= k < |boards| ensures Grids(boards)[k] == after[k] {
      if k != j {
        // The distinctness precondition is stated for p < q only: the two
        // branches instantiate it as (k, j) and as (j, k).
        assert boards[k].cells != boards[j].cells by {
          if k < j {
            assert boards[k].cells != boards[j].cells;
          } else {
            assert boards[j].cells != boards[k].cells;
          }
        }
      }
    }
  }

  /** The driver loop: draws outer, boards inner, stopping at the first
      board that is winning right after being marked. */
  method FirstWinner(draws: seq<nat>, boards: seq<Board>) returns (score: Option<nat>)
    requires forall b :: b in boards ==> b.Valid()
    requires forall p, q :: 0 <= p < q < |boards| ==> boards[p].cells != boards[q].cells
    modifies set b | b in boards :: b.cells
    ensures Grids(boards) == Play(old(Grids(boards)), draws).grids
    ensures score == Play(old(Grids(boards)), draws).score
  {
    ghost var goal := Play(Grids(boards), draws);
    for i := 0 to |draws|
      invariant Play(Grids(boards), draws[i..]) == goal
    {
      assert draws[i..][1..] == draws[i + 1..];
      score := PlayRound(draws[i], boards);
      if score.Some? {
        return;
      }
    }
    score := None;
  }

  /** The inner loop of the driver for one draw; a score here is the break
      out of both loops. */
  method PlayRound(draw: nat, boards: seq<Board>) returns (score: Option<nat>)
    requires forall b :: b in boards ==> b.Valid()
    requires forall p, q :: 0 <= p < q < |boards| ==> boards[p].cells != boards[q].cells
    modifies set b | b in boards :: b.cells
    ensures Grids(boards) == PlayDraw(old(Grids(boards)), draw, 0).grids
    ensures score == PlayDraw(old(Grids(boards)), draw, 0).score
  {
    ghost var roundGoal := PlayDraw(Grids(boards), draw, 0);
    for j := 0 to |boards|
      invariant PlayDraw(Grids(boards), draw, j) == roundGoal
    {
      ghost var before := Grids(boards);
      MarkBoard(boards, j, draw);
      ghost var marked: Grid := MarkFirst(before[j], draw);
      assert Grids(boards) == before[j := marked] && boards[j].Cells() == marked;
      var won := boards[j].IsWinning();
      if won {
        var sum := boards[j].SumOfUnmarked();
        return Some(sum * draw);
      }
    }
    return None;
  }

  // ---------------------------------------------------------------------------
  // Properties

  /** Marking changes exactly the first cell numbered t. */
  lemma {:induction false} MarkFirstAt(s: seq<Cell>, t: nat, k: nat)
    requires k < |s| && s[k].number == t
    requires forall q :: 0 <= q < k ==> s[q].number != t
    ensures MarkFirst(s, t) == s[k := s[k].(marked := true)]
  {
    if k > 0 {
      MarkFirstAt(s[1..], t, k - 1);
      assert [s[0]] + s[1..][k - 1 := s[k].(marked := true)] == s[k := s[k].(marked := true)];
    }
  }

  /** Marking a number that is not on the board changes nothing. */
  lemma {:induction false} MarkFirstAbsent(s: seq<Cell>, t: nat)
    requires forall q :: 0 <= q < |s| ==> s[q].number != t
    ensures MarkFirst(s, t) == s
  {
    if s != [] {
      MarkFirstAbsent(s[1..], t);
    }
  }

  /** Marking keeps every number and never clears a flag. */
  lemma {:induction false} MarkFirstMonotone(s: seq<Cell>, t: nat)
    ensures forall q :: 0 <= q < |s| ==> MarkFirst(s, t)[q].number == s[q].number
    ensures forall q :: 0 <= q < |s| && s[q].marked ==> MarkFirst(s, t)[q].marked
  {
    if s != [] && s[0].number != t {
      MarkFirstMonotone(s[1..], t);
      assert forall q :: 1 <= q < |s| ==> MarkFirst(s, t)[q] == MarkFirst(s[1..], t)[q - 1];
    }
  }

  /** A winning board stays winning whatever is drawn next. */
  lemma WinsMonotone(g: Grid, t: nat)
    requires Wins(g)
    ensures Wins(MarkFirst(g, t))
  {
    MarkFirstMonotone(g, t);
    var h: Grid := MarkFirst(g, t);
    if i :| 0 <= i < 5 && RowComplete(g, i) {
      forall j | 0 <= j < 5 ensures At(h, i, j).marked {
        assert At(g, i, j).marked;
      }
      assert RowComplete(h, i);
    } else {
      var j :| 0 <= j < 5 && ColumnComplete(g, j);
      forall i | 0 <= i < 5 ensures At(h, i, j).marked {
        assert At(g, i, j).marked;
      }
      assert ColumnComplete(h, j);
    }
  }

  /** Marking lowers the unmarked sum by t exactly when it marks a cell that was unmarked. */
  lemma {:induction false} UnmarkedSumAfterMark(s: seq<Cell>, t: nat)
    ensures UnmarkedSum(s) == UnmarkedSum(MarkFirst(s, t)) + (if FirstHitUnmarked(s, t) then t else 0)
  {
    if s != [] {
      var r := MarkFirst(s, t);
      if s[0].number == t {
        assert r[1..] == s[1..];
      } else {
        UnmarkedSumAfterMark(s[1..], t);
        assert r[1..] == MarkFirst(s[1..], t);
      }
    }
  }

  /** With nothing marked, the unmarked sum is the sum of all numbers. */
  lemma {:induction false} AllUnmarkedSum(s: seq<Cell>)
    requires forall q :: 0 <= q < |s| ==> !s[q].marked
    ensures UnmarkedSum(s) == NumberSum(s)
  {
    if s != [] {
      AllUnmarkedSum(s[1..]);
    }
  }

  /** A round without a winner marks every board once and leaves none winning. */
  lemma {:induction false} PlayDrawNoWinner(gs: seq<Grid>, draw: nat, j: nat)
    requires j <= |gs|
    ensures var r := PlayDraw(gs, draw, j);
            r.score == None ==>
              (forall k :: 0 <= k < j ==> r.grids[k] == gs[k]) &&
              (forall k :: j <= k < |gs| ==> r.grids[k] == MarkFirst(gs[k], draw) && !Wins(r.grids[k]))
    decreases |gs| - j
  {
    if j < |gs| {
      var g: Grid := MarkFirst(gs[j], draw);
      if !Wins(g) {
        PlayDrawNoWinner(gs[j := g], draw, j + 1);
      }
    }
  }

  /** A round with a winner stops at the first board k that is winning right
      after its mark: the boards j..k-1 were marked and are not winning,
      board k is marked and scores its unmarked sum times the draw, and no
      other board is touched. */
  lemma {:induction false} PlayDrawWinner(gs: seq<Grid>, draw: nat, j: nat)
    requires j <= |gs|
    ensures var r := PlayDraw(gs, draw, j);
            r.score.Some? ==>
              exists k :: j <= k < |gs| && FirstWinnerAt(gs, draw, j, k, r)
    decreases |gs| - j
  {
    if j < |gs| {
      var g: Grid := MarkFirst(gs[j], draw);
      var r := PlayDraw(gs, draw, j);
      if !Wins(g) {
        PlayDrawWinner(gs[j := g], draw, j + 1);
        if r.score.Some? {
          var k :| j + 1 <= k < |gs| && FirstWinnerAt(gs[j := g], draw, j + 1, k, r);
          assert FirstWinnerAt(gs, draw, j, k, r);
        }
      } else {
        assert FirstWinnerAt(gs, draw, j, j, r);
      }
    }
  }

  /** The outcome r of a round from board j on stops at board k. */
  predicate FirstWinnerAt(gs: seq<Grid>, draw: nat, j: nat, k: nat, r: Outcome)
    requires j <= k < |gs| && |r.grids| == |gs|
  {
    && r.grids[k] == MarkFirst(gs[k], draw)
    && Wins(r.grids[k])
    && r.score == Some(UnmarkedSum(r.grids[k]) * draw)
    && (forall q :: j <= q < k ==> r.grids[q] == MarkFirst(gs[q], draw) && !Wins(r.grids[q]))
    && (forall q :: 0 <= q < |gs| && (q < j || k < q) ==> r.grids[q] == gs[q])
  }

  /** When the drawn numbers run out without a winner, no board is winning. */
  lemma {:induction false} PlayNoWinner(gs: seq<Grid>, draws: seq<nat>)
    requires draws != []
    ensures Play(gs, draws).score == None ==> forall k :: 0 <= k < |gs| ==> !Wins(Play(gs, draws).grids[k])
    decreases draws
  {
    var r := PlayDraw(gs, draws[0], 0);
    PlayDrawNoWinner(gs, draws[0], 0);
    if r.score == None && |draws| > 1 {
      PlayNoWinner(r.grids, draws[1..]);
    }
  }

  /** The reported score is the unmarked sum of a winning board times one of the draws. */
  lemma {:induction false} PlayScore(gs: seq<Grid>, draws: seq<nat>)
    ensures Play(gs, draws).score.Some? ==>
              exists k, i :: 0 <= k < |gs| && 0 <= i < |draws| && Wins(Play(gs, draws).grids[k]) &&
                             Play(gs, draws).score.value == UnmarkedSum(Play(gs, draws).grids[k]) * draws[i]
  {
    if Play(gs, draws).score.Some? {
      PlayFirstScore(gs, draws);
      var i :| 0 <= i < |draws| && Play(gs, draws[..i]).score == None &&
               Play(gs, draws) == PlayDraw(Play(gs, draws[..i]).grids, draws[i], 0);
      var before := Play(gs, draws[..i]).grids;
      PlayDrawWinner(before, draws[i], 0);
      var k :| 0 <= k < |before| && FirstWinnerAt(before, draws[i], 0, k, Play(gs, draws));
    }
  }

  /** The game stops in the first round that has a winner: a score comes
      from some draw i, the draws before it gave none, and the final boards
      and score are those of round i played on the boards they left. */
  lemma {:induction false} PlayFirstScore(gs: seq<Grid>, draws: seq<nat>)
    ensures Play(gs, draws).score.Some? ==>
              exists i :: 0 <= i < |draws| && Play(gs, draws[..i]).score == None &&
                          Play(gs, draws) == PlayDraw(Play(gs, draws[..i]).grids, draws[i], 0)
    decreases draws
  {
    if draws != [] {
      var r := PlayDraw(gs, draws[0], 0);
      if r.score.Some? {
        assert draws[..0] == [];
        assert Play(gs, draws[..0]) == Outcome(gs, None);
      } else if Play(gs, draws).score.Some? {
        PlayFirstScore(r.grids, draws[1..]);
        var i :| 0 <= i < |draws| - 1 && Play(r.grids, draws[1..][..i]).score == None &&
                 Play(r.grids, draws[1..]) == PlayDraw(Play(r.grids, draws[1..][..i]).grids, draws[1..][i], 0);
        assert draws[..i + 1][0] == draws[0] && draws[..i + 1][1..] == draws[1..][..i];
        assert Play(gs, draws[..i + 1]) == Play(r.grids, draws[1..][..i]);
        assert draws[1..][i] == draws[i + 1];
      }
    }
  }
}
