# Advent of Code 2021, days 1 to 7, in Dafny

A model of the computational kernels of seven small puzzle programs, each
one Dafny module, with proofs of what they compute:

- `Sonar` (day 1, `sonar.dfy`): sliding sums of three depth readings and
  the number of strict increases between neighbouring readings, for the
  readings and for the window sums.
- `Dive` (day 2, `dive.dfy`): the `Move` commands and the two ways of
  stepping a submarine `Position` (depth/forward, and depth/forward/aim),
  folded over a list of moves from the zero position.
- `Diagnostic` (day 3, `diagnostic.dfy`): per-column counts of `'1'` bits,
  the majority bit string, big-endian conversion to a number, the bitwise
  complement, and the oxygen-rating filter.
- `Bingo` (day 4, `bingo.dfy`): a 5 x 5 `Board` over an `array2` of
  numbered, markable cells, with marking, the row/column win check, the
  unmarked sum, and the game loop that finds the first winning board.
- `Vents` (day 5, `vents.dfy`): the `SeaFloor`, a sparse map from lattice
  points to the number of segments covering them, line drawing for
  vertical, horizontal and (optionally) 45-degree segments, the count of
  points covered twice or more, and the parser of `x1,y1 -> x2,y2` lines.
- `Lanternfish` (day 6, `lanternfish.dfy`): fish counted in nine timer
  buckets, the initial tally, and the daily rotation of the bucket queue.
- `Crabs` (day 7, `crabs.dfy`): the linear and triangular fuel cost of
  aligning all crabs at a target, minimised over a range of targets.

`wrappers.dfy` holds the `Option` type shared by the modules.

Operations that change state step by step are methods with loops, proved
against specification functions (`Sonar.Increases`, `Diagnostic.BigEndian`,
`Bingo.MarkFirst`, `Bingo.Play`, `Vents.Coverage`, `Lanternfish.Iterate`);
the lemmas beside those functions state what the programs promise.
Integers are unbounded. Most preconditions are places where the programs
themselves panic (an index past the end, an unsigned subtraction below
zero, the minimum of an empty range). Two are modelling assumptions
instead, both listed under "Left out": drawing with diagonals enabled
requires a segment that is vertical, horizontal or at 45 degrees, and the
bingo driver requires the boards to be distinct arrays. The logic that
lives in each program's `main` is lifted into methods that take the
already parsed input as a sequence.

## Model

| member | source | states |
|---|---|---|
| Sonar.WindowDepths | day1/src/main.rs:12-16 | for n >= 1 readings, there are n - 2 window sums (none when n <= 2), and window k is readings k + (k+1) + (k+2) |
| Sonar.Deepenings | day1/src/main.rs:19-29 | the loop with the optional previous reading counts exactly the neighbouring pairs that strictly increase |
| Sonar.Solve | day1/src/main.rs:12-44 | part 1 is the number of indices i >= 1 deeper than i - 1; part 2 the number of windows deeper than the previous one, which is the number of k with reading k below reading k + 3 |
| Sonar.IncreasesCountsDeeperIndices | day1/src/main.rs:19-29 | the count of strict increases equals the size of the set of indices i >= 1 with s[i-1] < s[i]; equal neighbours do not count |
| Sonar.IncreasesBound | day1/src/main.rs:20-28 | no deepening for fewer than two readings, at most n - 1 otherwise |
| Sonar.WindowDeeperIndices | day1/src/main.rs:34-44 | two neighbouring windows share two readings, so a window is deeper than the previous one exactly when the reading it gains exceeds the one it drops |
| Dive.Part1Move | day2/src/main.rs:84-90 | up takes from depth, down adds to depth, forward adds to forward; aim never changes; up needs depth >= n (u32 underflow otherwise) |
| Dive.Part2Move | day2/src/main.rs:92-98 | up and down change only aim; forward adds n to forward and n * aim to depth, leaving aim; up needs aim >= n |
| Dive.Navigate | day2/src/main.rs:110-118 | both positions start at zero and are stepped move by move; the answers are depth * forward of each fold |
| Dive.AimTracksDepth | day2/src/main.rs:84-98 | part 2 steers the aim exactly as part 1 steers the depth: the two folds underflow on the same move lists, agree on the forward distance, and part 2's final aim is part 1's final depth |
| Dive.Run1ClosedForm | day2/src/main.rs:84-90 | part 1 succeeds exactly when no prefix of the moves rises above the surface, and then ends at the net descent and the total forward distance with aim unchanged |
| Diagnostic.Complement | day3/src/main.rs:72-84 | the complement of a binary string is a binary string of the same length; ComplementInvolution and ComplementSum state the rest |
| Diagnostic.VecToNumber | day3/src/main.rs:60-70 | the accumulating loop computes the big-endian value: a '1' at index i is worth 2^(len-1-i), any other character 0 |
| Diagnostic.BitwiseNot | day3/src/main.rs:72-84 | the pushing loop produces the complement, flipping every '0' and '1'; any other character is a panic and is excluded |
| Diagnostic.CountOnes | day3/src/main.rs:19-27 | after the nested loops, counter[i] is the number of strings with '1' in column i |
| Diagnostic.TargetBits | day3/src/main.rs:33-36 | target bit i is '1' exactly when 2 * count[i] > total, which is count[i] > total / 2 under integer division |
| Diagnostic.MajorityBits | day3/src/main.rs:33-36 | the majority string has one binary character per column; CountOnes and TargetBits tie it to the counts |
| Diagnostic.OxygenFilter | day3/src/main.rs:48-54 | after r rounds the candidates are exactly the input strings agreeing with the fixed target bits on the first r columns, in input order; at least one round runs when there is a column; the loop stops early exactly at the first round that leaves one candidate, otherwise after all columns |
| Diagnostic.Diagnose | day3/src/main.rs:13-57 | gamma and epsilon are the values of the majority string and of its complement, they add up to 2^len - 1, and the oxygen rating is the value of the first candidate left after the filter, which runs at least one round when the strings are non-empty (None where indexing the empty candidate list panics) |
| Diagnostic.BigEndianBound | day3/src/main.rs:60-70 | a string of length n is worth less than 2^n |
| Diagnostic.ComplementInvolution | day3/src/main.rs:76-79 | complementing twice gives the binary string back |
| Diagnostic.ComplementSum | day3/src/main.rs:39-40 | a binary string and its complement are worth 2^len - 1 together (gamma + epsilon) |
| Diagnostic.OnesAtBound | day3/src/main.rs:19-27 | a column count never exceeds the number of strings |
| Diagnostic.MatchingMembers | day3/src/main.rs:48-54 | a string survives k rounds exactly when it is an input string agreeing with the target on the first k columns |
| Diagnostic.MatchingNone | day3/src/main.rs:48 | before any round every string is a candidate |
| Diagnostic.MatchingStep | day3/src/main.rs:50 | one filter round on column k turns agreement on k columns into agreement on k + 1 |
| Bingo.MarkFirst | day4/src/main.rs:31-37 | marking keeps the number of cells; which cell it changes is stated by MarkFirstAt, MarkFirstAbsent and MarkFirstMonotone |
| Bingo.Board.constructor | day4/src/main.rs:11-24 | cell (i, j) holds the j-th number of line i, unmarked; only the first five numbers of the first five lines are used; the unmarked sum of the new board is the sum of all its numbers |
| Bingo.Board.Mark | day4/src/main.rs:27-39 | the board becomes MarkFirst of its row-major cells: the first cell holding the target is marked and nothing else changes |
| Bingo.Board.IsWinning | day4/src/main.rs:42-73 | the two flag loops return true exactly when some row or some column is fully marked; diagonals do not count |
| Bingo.Board.WinningBoard | day4/src/main.rs:42-73 | a complete row or column of the row-major view is a complete row or column of the array |
| Bingo.Board.UnmarkedFrom | day4/src/main.rs:77-83 | the sum over the cells from row-major index k on is the unmarked sum of that suffix |
| Bingo.Board.SumOfUnmarked | day4/src/main.rs:77-83 | the sum of the numbers in the unmarked cells |
| Bingo.PlayDraw | day4/src/main.rs:100-107 | one draw leaves as many boards as before; its outcome is stated by PlayDrawNoWinner and PlayDrawWinner |
| Bingo.Play | day4/src/main.rs:99-108 | the game leaves as many boards as before; its outcome is stated by PlayNoWinner, PlayFirstScore and PlayScore |
| Bingo.MarkBoard | day4/src/main.rs:101 | marking one board leaves every other board's cells as they were |
| Bingo.PlayRound | day4/src/main.rs:100-107 | the board loop for one draw marks the boards in order and stops at the first board winning after its mark, scoring its unmarked sum times the draw |
| Bingo.FirstWinner | day4/src/main.rs:99-108 | draws outer, boards inner: the boards end as Play says and the score is Play's score, the labelled break being the first score of a round |
| Bingo.MarkFirstAt | day4/src/main.rs:31-37 | marking changes exactly the first cell holding the target, setting only its flag |
| Bingo.MarkFirstAbsent | day4/src/main.rs:31-38 | marking a number that is not on the board changes nothing |
| Bingo.MarkFirstMonotone | day4/src/main.rs:31-37 | marking keeps every number and never clears a flag |
| Bingo.WinsMonotone | day4/src/main.rs:31-37 | a winning board stays winning whatever is drawn next |
| Bingo.UnmarkedSumAfterMark | day4/src/main.rs:27-39 | marking lowers the unmarked sum by the target exactly when the first cell holding it was unmarked, and otherwise leaves it |
| Bingo.AllUnmarkedSum | day4/src/main.rs:12 | with nothing marked the unmarked sum is the sum of all numbers |
| Bingo.PlayDrawNoWinner | day4/src/main.rs:100-107 | a round without a winner marks every board once and leaves none of them winning |
| Bingo.PlayDrawWinner | day4/src/main.rs:102-105 | a round with a winner stops at the first board k winning right after its mark: the boards before k in the round were marked and are not winning, board k is marked and scores its unmarked sum times the draw, and no other board is touched |
| Bingo.PlayNoWinner | day4/src/main.rs:99-108 | when the draws run out without a score, no board is winning |
| Bingo.PlayScore | day4/src/main.rs:99-108 | a reported score is the unmarked sum of a winning board times one of the drawn numbers |
| Bingo.PlayFirstScore | day4/src/main.rs:99-108 | the game stops in the first round with a winner: a score comes from some draw i, the draws before it give no score, and the final boards and score are those of round i played on the boards they left |
| Vents.Walk | day5/src/main.rs:22-53 | start, direction and step count of the three branches, a slanted segment walked from its left-most end; a walk on which y falls never goes below y = 0; PathIsSegment states which points it visits |
| Vents.SeaFloor.constructor | day5/src/main.rs:100 | a new sea floor is the empty map |
| Vents.SeaFloor.LinesAtPoint | day5/src/main.rs:15-17 | the stored count, which is 0 exactly for a point never drawn |
| Vents.SeaFloor.Increment | day5/src/main.rs:26 | the entry update increments a stored count or inserts 1, touching no other point, and keeps every stored count >= 1 |
| Vents.SeaFloor.AddLine | day5/src/main.rs:20-56 | every point the segment covers gains exactly one, every other point keeps its count, and the stored points grow by exactly the covered ones; a slanted segment with diagonals off changes nothing |
| Vents.SeaFloor.WalkRange | day5/src/main.rs:24-27 | the range loop adds one to each point with the fixed coordinate and the other in lo..=hi |
| Vents.SeaFloor.WalkDiagonal | day5/src/main.rs:43-53 | the offset loop adds one to the length + 1 points from the start with y moving up or down as x grows |
| Vents.SeaFloor.CountOverlaps | day5/src/main.rs:107-112 | the count of stored points whose count is at least 2, in any iteration order |
| Vents.AxisIsSegment | day5/src/main.rs:22-35 | for a vertical or horizontal segment, in either endpoint order, the range loop covers exactly the points of the segment |
| Vents.DiagonalIsSegment | day5/src/main.rs:42-53 | the diagonal loop over Walk's start, direction and length covers exactly the points of the 45-degree segment |
| Vents.StoredKeys | day5/src/main.rs:26 | with counts inserted as 1 and only incremented, the stored points grow by exactly the covered ones |
| Vents.PathIsSegment | day5/src/main.rs:22-53 | a segment's walk has max(abs dx, abs dy) + 1 distinct points, runs from one endpoint to the other, and visits exactly the points of the segment |
| Vents.IgnoredDiagonal | day5/src/main.rs:36-41 | with diagonals off, a slanted segment covers no point |
| Vents.Solve | day5/src/main.rs:99-112 | drawing every segment in order onto a new sea floor and counting gives the number of points covered by two or more segments |
| Vents.CoverageBound | day5/src/main.rs:99-104 | only points inside the bounding box of the endpoints are ever covered |
| Vents.CoverageConcat | day5/src/main.rs:101-104 | the counts of two batches of segments add up |
| Vents.CoverageOrderIndependent | day5/src/main.rs:101-104 | drawing batch a then batch b gives every point the same count as b then a |
| Vents.CoveragePermutation | day5/src/main.rs:101-104 | any rearrangement of the segments gives every point the same count |
| Vents.FindChar | day5/src/main.rs:83 | the first index holding the character, or None when there is none |
| Vents.FindLastChar | day5/src/main.rs:85 | the last index holding the character, or None when there is none |
| Vents.FindText | day5/src/main.rs:84 | the first index where the pattern occurs, or None when it does not |
| Vents.ParseU32 | day5/src/main.rs:87-91 | a parsed field is a u32, below 2^32; DecimalRoundTrip states that canonical decimals parse back to their value (a leading '+' and leading zeros are also accepted, and no lemma states their value) |
| Vents.CoordsFromString | day5/src/main.rs:82-94 | x1 ends at the first comma, y1 at the first ` -> `, x2 at the last comma; `None` where a separator is missing, a slice start passes its end, or a field is not a u32; a parsed segment has all four coordinates below 2^32 and was delimited by separators that FindSeparators found; CoordsRoundTrip and CoordsExample state what it parses |
| Vents.ParseFields | day5/src/main.rs:87-91 | the four fields between the separators, each parsed as a u32, so every coordinate of a result is below 2^32 |
| Vents.FindSeparators | day5/src/main.rs:83-91 | found separators delimit four fields in order: first comma, then arrow, then last comma |
| Vents.Decimal | day5/src/main.rs:82-93 | the decimal form of a number is a non-empty string of digits |
| Vents.DecimalValue | day5/src/main.rs:87-91 | the digits of n are worth n |
| Vents.ValueFromPrefix | day5/src/main.rs:87-91 | the value of a digit prefix depends only on that prefix |
| Vents.DecimalRoundTrip | day5/src/main.rs:87-91 | a u32 written in decimal parses back to itself |
| Vents.CoordsRoundTrip | day5/src/main.rs:82-94 | every segment with u32 coordinates, written as `x1,y1 -> x2,y2`, is parsed back to itself |
| Vents.LineOfFields | day5/src/main.rs:82-94 | four digit fields joined by comma, arrow and comma parse to the numbers they are worth |
| Vents.CoordsExample | day5/src/main.rs:136-141 | `860,786 -> 701,945` parses to ((860, 786), (701, 945)) |
| Lanternfish.Step | day6/src/main.rs:15-21 | one day keeps nine buckets; the buckets and the population it gives are stated by StepBuckets and StepPopulation |
| Lanternfish.Iterate | day6/src/main.rs:13-22 | any number of days keeps nine buckets |
| Lanternfish.Tally | day6/src/main.rs:9-11 | the buckets are Initial(input): bucket t holds the number of input fish with timer t, and the buckets hold the whole input |
| Lanternfish.Simulate | day6/src/main.rs:13-23 | the in-place pop_front, += on bucket 6 and push_back compute the day step, and the population recorded after day n + 1 is the sum of the buckets after n + 1 days |
| Lanternfish.Run | day6/src/main.rs:9-23 | 256 populations are reported; the one after day n + 1 is the sum of the buckets after n + 1 days from the initial tally; none is below the input size, and they never decrease |
| Lanternfish.StepPopulation | day6/src/main.rs:15-23 | a day adds exactly the spawning fish of bucket 0 to the population |
| Lanternfish.StepBuckets | day6/src/main.rs:15-21 | after a day bucket i holds old bucket i + 1 for i in 0..=7 except 6, bucket 6 holds old 7 plus old 0, and bucket 8 holds old 0 |
| Lanternfish.SpawnSum | day6/src/main.rs:18-21 | adding the spawning fish to bucket 6 and as a new bucket 8 adds them twice |
| Lanternfish.PopulationGrows | day6/src/main.rs:13-23 | the population never decreases from one day to a later one |
| Crabs.MaxOf | day7/src/main.rs:6-9 | the maximum bounds every position and is one of them |
| Crabs.LowestCost | day7/src/main.rs:12-20 | the minimum over the targets 0..n of the cost is at most every such cost and is one of them |
| Crabs.LowestCostAsWritten | day7/src/main.rs:12-34 | each answer, at either rate, is at most the cost of every target in 0..max and equals the cost of one of them; max itself is not searched, and max <= 0 is the panic of an empty minimum |
| Crabs.LowestCostCorrected | day7/src/main.rs:12-34 | over the closed range 0..=max the result is at most the cost of every target in the range and is the cost of one of them |
| Crabs.Answers | day7/src/main.rs:12-34 | both answers over the corrected range: each is at most the cost at every target in 0..=max at its rate and is attained there, and the triangular one is never below the linear one |
| Crabs.TriangleClosedForm | day7/src/main.rs:30 | d(d + 1)/2 is the sum 1 + 2 + ... + d |
| Crabs.TriangularAtLeastLinear | day7/src/main.rs:16-30 | a triangular step costs at least as much as a linear one |
| Crabs.TriangularCostAtLeastLinear | day7/src/main.rs:14-31 | at every target the triangular total is at least the linear total |
| Crabs.LowestTriangularAtLeastLinear | day7/src/main.rs:12-34 | so is the lowest triangular cost over the same range |
| Crabs.StepCostMonotone | day7/src/main.rs:16-30 | fuel grows with the distance at both rates |
| Crabs.CorrectedIsOptimal | day7/src/main.rs:12-34 | with all positions nonnegative, no integer target at all costs less than the minimum over 0..=max |
| Crabs.AsWrittenMissesMax | day7/src/main.rs:12-20 | for a single crab at 3 the program reports 1 although target 3 costs 0, which the closed range finds |

## Left out

- File reading and every `println!` are left out; the methods take the parsed input and return what the programs print.
- The nom parsers of day 2 (`parse_move`, `up`, `down`, `forward`) are left out because they are thin wrappers over an external parser library; `Move` values are the input.
- `SeaFloor::visualize` of day 5 is left out because it only prints.
- Text parsing other than day 5's `coords_from_string` is left out: day 1's `from_str_radix`, the whitespace splitting and number parsing of `Board::new`, the draw list of day 4 and the comma lists of days 6 and 7 are modelled on already parsed numbers.
- Unicode is not modelled: strings are sequences of characters, and the char-boundary panic of Rust slicing cannot arise.
- Vents.SeaFloor.AddLine: with diagonals enabled it requires a vertical, horizontal or 45-degree segment. The program assumes this shape and draws any other slanted segment along a 45-degree walk of abs(x2 - x1) + 1 points from its left-most end, for instance (0,5), (1,4), (2,3), (3,2) for ((0,5),(3,0)), panicking if y falls below 0. That behaviour is not modelled. With diagonals off every slanted segment is ignored, whatever its slope.
- The iteration order of the hash map is not modelled; the map is a Dafny `map` and counting goes over its keys in any order.
- Sonar.WindowDepths: does not model u32 overflow of a window sum.
- Dive.Navigate: does not model u32 overflow of depth, forward, depth * forward or n * aim; it requires both folds never to go below zero, as an unsigned underflow of the program is a panic.
- Diagnostic.VecToNumber: does not model u32 overflow of the value of strings longer than 32 bits.
- Diagnostic.Diagnose: requires every string to be at least as long as the first one, since a shorter string is an index panic in the counting loop.
- Lanternfish.Run: does not model u64 overflow of the fish counts; the 256 days are the constant `Days`.
- Crabs.LowestCostAsWritten: does not model i32 overflow of the cost sums or of the parsed positions.
- Bingo.FirstWinner: requires the boards to be distinct arrays, as do Bingo.PlayRound and Bingo.MarkBoard. The program's vector owns its boards, so aliasing cannot happen there, and the model does not cover boards that share cells. The labelled `break 'outer` is modelled by the inner board loop (`Bingo.PlayRound`) returning the score to the draw loop.

## Findings

| source | as written | input that shows it | evidently intended | confidence | as-written member | corrected member |
|---|---|---|---|---|---|---|
| day7/src/main.rs:12-20 | both searches run over the half-open range `0..max_starting`, which leaves out the largest position as a target (also lines 25-34) | positions `[3]`: the program reports 1 (target 2), while target 3 costs 0 | the closed range `0..=max_starting`, which holds a best target whenever no position is negative (with negative positions the best target can lie below 0, as -5 does for `[-5, -5, 3]`) | not executed | Crabs.AsWrittenMissesMax | Crabs.CorrectedIsOptimal |
