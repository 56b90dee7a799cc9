/** Day 5: hydrothermal vents. Line segments are drawn onto a sparse map from
    lattice points to the number of segments covering them; the answer is the
    number of points covered at least twice. */
module Vents {
  import opened Wrappers

  type Point = (nat, nat)

  /** A segment ((x1, y1), (x2, y2)). */
  type Segment = (Point, Point)

  function Min(a: nat, b: nat): nat { if a < b then a else b }
  function Max(a: nat, b: nat): nat { if a < b then b else a }
  function Dist(a: nat, b: nat): nat { if a < b then b - a else a - b }

  /** The count stored for p, 0 for a point never drawn. */
  function Lookup(m: map<Point, nat>, p: Point): nat
  {
    if p in m then m[p] else 0
  }

  predicate IsVertical(line: Segment) { line.0.0 == line.1.0 }
  predicate IsHorizontal(line: Segment) { line.0.1 == line.1.1 }

  /** A segment at 45 degrees (or a single point). */
  predicate IsDiagonal(line: Segment)
  {
    Dist(line.0.0, line.1.0) == Dist(line.0.1, line.1.1)
  }

  /** The segments the program handles: axis-parallel or at 45 degrees. */
  predicate Drawable(line: Segment)
  {
    IsVertical(line) || IsHorizontal(line) || IsDiagonal(line)
  }

  /** Reference geometry: p lies on the segment, both endpoints included,
      whatever the order of the endpoints. A slanted segment rises exactly
      when its x and y grow together. */
  predicate OnSegment(line: Segment, p: Point)
  {
    var ((x1, y1), (x2, y2)) := line;
    && Min(x1, x2) <= p.0 <= Max(x1, x2)
    && Min(y1, y2) <= p.1 <= Max(y1, y2)
    && (IsVertical(line) || IsHorizontal(line) ||
        if (x1 < x2) == (y1 < y2) then p.1 - y1 == p.0 - x1 else p.1 - y1 == x1 - p.0)
  }

  /** Whether drawing the segment covers p; slanted segments are ignored
      entirely unless diagonals are enabled. */
  predicate Covers(line: Segment, diags: bool, p: Point)
  {
    (IsVertical(line) || IsHorizontal(line) || diags) && OnSegment(line, p)
  }

  /** The directions in which the drawing loops walk. */
  datatype Direction = AlongX | AlongY | Rising | Falling

  /** The point `offset` steps from start: along x, along y, or along a
      diagonal on which y rises or falls as x grows. */
  function Step(start: Point, dir: Direction, offset: nat): Point
    requires dir == Falling ==> offset <= start.1
  {
    match dir
    case AlongX => (start.0 + offset, start.1)
    case AlongY => (start.0, start.1 + offset)
    case Rising => (start.0 + offset, start.1 + offset)
    case Falling => (start.0 + offset, start.1 - offset)
  }

  /** The walk of the drawing loop for a drawable segment that is not
      ignored: its start, direction and number of steps. A slanted segment
      is walked from its left-most end, rising when the other end is higher. */
  function Walk(line: Segment): (w: (Point, Direction, nat))
    requires Drawable(line)
    ensures w.1 == Falling ==> w.2 <= w.0.1
  {
    var ((x1, y1), (x2, y2)) := line;
    if x1 == x2 then ((x1, Min(y1, y2)), AlongY, Dist(y1, y2))
    else if y1 == y2 then ((Min(x1, x2), y1), AlongX, Dist(x1, x2))
    else if x1 < x2 then ((x1, y1), if y2 > y1 then Rising else Falling, x2 - x1)
    else ((x2, y2), if y1 > y2 then Rising else Falling, x1 - x2)
  }

  /** The points of a drawable segment in the order the loop visits them. */
  function Path(line: Segment): (path: seq<Point>)
    requires Drawable(line)
  {
    var (start, dir, n) := Walk(line);
    seq(n + 1, o requires 0 <= o <= n => Step(start, dir, o))
  }

  /** The points covered at least twice. */
  function Overlaps(m: map<Point, nat>): set<Point>
  {
    set p | p in m && m[p] >= 2
  }

  class SeaFloor {
    var data: map<Point, nat>

    /** Entries are inserted as 1 and only ever incremented. */
    ghost predicate Valid()
      reads this
    {
      forall p: Point :: p in data ==> data[p] >= 1
    }

    constructor ()
      ensures Valid() && data == map[]
    {
      data := map[];
    }

    /** lines_at_point: the stored count, 0 exactly for a point never drawn. */
    function LinesAtPoint(p: Point): (n: nat)
      requires Valid()
      reads this
      ensures n == Lookup(data, p)
      ensures n == 0 <==> p !in data
    {
      if p in data then data[p] else 0
    }

    /** The entry update shared by all three branches: increment, or insert 1. */
    method Increment(p: Point)
      requires Valid()
      modifies this
      ensures Valid()
      ensures data == old(data)[p := Lookup(old(data), p) + 1]
    {
      if p in data {
        data := data[p := data[p] + 1];
      } else {
        data := data[p := 1];
      }
    }

    /** add_line: a vertical segment (equal x, which includes a single point)
        is walked over y, a horizontal one over x, and a slanted one, when
        diagonals are enabled, from its left-most end with y moving up or
        down. Every covered point gains exactly one; nothing else changes. */
    method AddLine(line: Segment, diags: bool)
      requires Valid()
      requires diags ==> Drawable(line)
      modifies this
      ensures Valid()
      ensures forall p: Point :: Lookup(data, p) == Lookup(old(data), p) + (if Covers(line, diags, p) then 1 else 0)
      ensures forall p: Point :: p in data <==> p in old(data) || Covers(line, diags, p)
    {
      var ((x1, y1), (x2, y2)) := line;
      if x1 == x2 {
        var (lo, hi) := if y1 < y2 then (y1, y2) else (y2, y1);
        WalkRange(x1, lo, hi, false);
        AxisIsSegment(line, diags, lo, hi);
      } else if y1 == y2 {
        var (lo, hi) := if x1 < x2 then (x1, x2) else (x2, x1);
        WalkRange(y1, lo, hi, true);
        AxisIsSegment(line, diags, lo, hi);
      } else {
        if !diags {
          forall p: Point ensures !Covers(line, diags, p) {
            IgnoredDiagonal(line, p);
          }
          return;
        }
        var (start, dir, length) := Walk(line);
        WalkDiagonal(start.0, start.1, dir == Rising, length);
        DiagonalIsSegment(line);
      }
      StoredKeys(old(data), data, line, diags);
    }

    /** The loop of the diagonal branch: length + 1 points from the start,
        with y moving up or down as x grows. */
    method WalkDiagonal(xStart: nat, yStart: nat, uphill: bool, length: nat)
      requires Valid() && (!uphill ==> length <= yStart)
      modifies this
      ensures Valid()
      ensures forall p: Point :: Lookup(data, p) == Lookup(old(data), p) +
                (if OnDiagonal(xStart, yStart, uphill, length + 1, p) then 1 else 0)
    {
      for offset := 0 to length + 1
        invariant Valid()
        invariant forall p: Point :: Lookup(data, p) == Lookup(old(data), p) +
                    (if OnDiagonal(xStart, yStart, uphill, offset, p) then 1 else 0)
      {
        var x := xStart + offset;
        var y := if uphill then yStart + offset else yStart - offset;
        Increment((x, y));
      }
    }

    /** The loop of the axis-parallel branches: fixed is the shared coordinate
        and lo..=hi the range of the other one (x when horizontal). */
    method WalkRange(fixed: nat, lo: nat, hi: nat, horizontal: bool)
      requires Valid() && lo <= hi
      modifies this
      ensures Valid()
      ensures forall p: Point :: Lookup(data, p) == Lookup(old(data), p) +
                (if (if horizontal then p.1 == fixed && lo <= p.0 <= hi else p.0 == fixed && lo <= p.1 <= hi) then 1 else 0)
    {
      for k := lo to hi + 1
        invariant Valid()
        invariant forall p: Point :: Lookup(data, p) == Lookup(old(data), p) +
                    (if (if horizontal then p.1 == fixed && lo <= p.0 < k else p.0 == fixed && lo <= p.1 < k) then 1 else 0)
      {
        Increment(if horizontal then (k, fixed) else (fixed, k));
      }
    }

    /** The part 1 and part 2 answer: the number of points covered twice or
        more, counted over the entries of the map in an arbitrary order. */
    method CountOverlaps() returns (count: nat)
      requires Valid()
      ensures count == |Overlaps(data)|
    {
      count := 0;
      var remaining := data.Keys;
      while remaining != {}
        invariant remaining <= data.Keys
        invariant count == |Overlaps(data) - remaining|
        decreases |remaining|
      {
        var p :| p in remaining;
        if data[p] >= 2 {
          assert Overlaps(data) - (remaining - {p}) == (Overlaps(data) - remaining) + {p};
          count := count + 1;
        } else {
          assert Overlaps(data) - (remaining - {p}) == Overlaps(data) - remaining;
        }
        remaining := remaining - {p};
      }
    }
  }

  /** The points the diagonal loop has visited after `offset` steps. */
  predicate OnDiagonal(xStart: nat, yStart: nat, uphill: bool, offset: nat, p: Point)
  {
    xStart <= p.0 < xStart + offset &&
    p.1 == (if uphill then yStart + (p.0 - xStart) else yStart - (p.0 - xStart))
  }

  /** The diagonal loop visits exactly the points of the segment. */
  lemma DiagonalIsSegment(line: Segment)
    requires !IsVertical(line) && !IsHorizontal(line) && IsDiagonal(line)
    ensures var (start, dir, length) := Walk(line);
            forall p: Point :: OnDiagonal(start.0, start.1, dir == Rising, length + 1, p) <==> OnSegment(line, p)
  {
  }

  /** When every count grows by one exactly on the covered points, and stored
      counts are positive, the stored points grow by the covered ones. */
  lemma StoredKeys(before: map<Point, nat>, after: map<Point, nat>, line: Segment, diags: bool)
    requires forall p: Point :: p in after ==> after[p] >= 1
    requires forall p: Point :: p in before ==> before[p] >= 1
    requires forall p: Point :: Lookup(after, p) == Lookup(before, p) + (if Covers(line, diags, p) then 1 else 0)
    ensures forall p: Point :: p in after <==> p in before || Covers(line, diags, p)
  {
    forall p: Point ensures p in after <==> p in before || Covers(line, diags, p) {
      assert Lookup(after, p) == Lookup(before, p) + (if Covers(line, diags, p) then 1 else 0);
    }
  }

  /** The range loop of an axis-parallel segment visits exactly the points
      the segment covers, with or without diagonals. */
  lemma AxisIsSegment(line: Segment, diags: bool, lo: nat, hi: nat)
    requires IsVertical(line) || IsHorizontal(line)
    requires var ((x1, y1), (x2, y2)) := line;
             if x1 == x2 then (lo, hi) == (if y1 < y2 then (y1, y2) else (y2, y1))
             else (lo, hi) == (if x1 < x2 then (x1, x2) else (x2, x1))
    ensures forall p: Point :: Covers(line, diags, p) <==>
              if IsVertical(line) then p.0 == line.0.0 && lo <= p.1 <= hi
              else p.1 == line.0.1 && lo <= p.0 <= hi
  {
  }

  // ---------------------------------------------------------------------------
  // Properties of the drawing

  /** The walk of a drawable segment has max(|dx|, |dy|) + 1 distinct points,
      runs from one endpoint to the other, and visits exactly the points of
      the segment. */
  lemma PathIsSegment(line: Segment)
    requires Drawable(line)
    ensures var path := Path(line);
            && |path| == Max(Dist(line.0.0, line.1.0), Dist(line.0.1, line.1.1)) + 1
            && (forall a, b :: 0 <= a < b < |path| ==> path[a] != path[b])
            && ((path[0] == line.0 && path[|path| - 1] == line.1) ||
                (path[0] == line.1 && path[|path| - 1] == line.0))
            && forall p: Point :: OnSegment(line, p) <==> p in path
  {
    var path := Path(line);
    var (start, dir, n) := Walk(line);
    forall p: Point | OnSegment(line, p) ensures p in path {
      var o := if dir == AlongY then p.1 - start.1 else p.0 - start.0;
      assert path[o] == p;
    }
  }

  /** A slanted segment with diagonals disabled leaves the map unchanged. */
  lemma IgnoredDiagonal(line: Segment, p: Point)
    requires !IsVertical(line) && !IsHorizontal(line)
    ensures !Covers(line, false, p)
  {
  }

  // ---------------------------------------------------------------------------
  // Drawing a whole input

  /** The number of segments among lines that cover p. */
  function Coverage(lines: seq<Segment>, diags: bool, p: Point): nat
  {
    if lines == [] then 0
    else Coverage(lines[..|lines| - 1], diags, p) + (if Covers(lines[|lines| - 1], diags, p) then 1 else 0)
  }

  /** The largest coordinate of any endpoint. */
  function Bound(lines: seq<Segment>): nat
  {
    if lines == [] then 0
    else
      var ((x1, y1), (x2, y2)) := lines[|lines| - 1];
      Max(Bound(lines[..|lines| - 1]), Max(Max(x1, x2), Max(y1, y2)))
  }

  /** The lattice points covered by two or more of the segments. */
  function Dangerous(lines: seq<Segment>, diags: bool): set<Point>
  {
    var b := Bound(lines);
    set x: nat, y: nat | x <= b && y <= b && Coverage(lines, diags, (x, y)) >= 2 :: (x, y)
  }

  /** The driver of either part: a fresh sea floor, every segment drawn in
      order, then the points covered at least twice counted. */
  method Solve(lines: seq<Segment>, diags: bool) returns (answer: nat)
    requires diags ==> forall k :: 0 <= k < |lines| ==> Drawable(lines[k])
    ensures answer == |Dangerous(lines, diags)|
  {
    var floor := new SeaFloor();
    for i := 0 to |lines|
      invariant floor.Valid()
      invariant forall p: Point :: Lookup(floor.data, p) == Coverage(lines[..i], diags, p)
    {
      assert lines[..i + 1][..i] == lines[..i];
      floor.AddLine(lines[i], diags);
    }
    assert lines[..|lines|] == lines;
    answer := floor.CountOverlaps();
    forall p: Point ensures p in Overlaps(floor.data) <==> p in Dangerous(lines, diags) {
      CoverageBound(lines, diags, p);
    }
    assert Overlaps(floor.data) == Dangerous(lines, diags);
  }

  /** Only points within the bounding box of the input are ever covered. */
  lemma {:induction false} CoverageBound(lines: seq<Segment>, diags: bool, p: Point)
    ensures Coverage(lines, diags, p) > 0 ==> p.0 <= Bound(lines) && p.1 <= Bound(lines)
  {
    if lines != [] {
      CoverageBound(lines[..|lines| - 1], diags, p);
    }
  }

  /** Counts of two batches of segments add up. */
  lemma {:induction false} CoverageConcat(a: seq<Segment>, b: seq<Segment>, diags: bool, p: Point)
    ensures Coverage(a + b, diags, p) == Coverage(a, diags, p) + Coverage(b, diags, p)
  {
    if b == [] {
      assert a + b == a;
    } else {
      assert (a + b)[..|a + b| - 1] == a + b[..|b| - 1];
      CoverageConcat(a, b[..|b| - 1], diags, p);
    }
  }

  /** The final map does not depend on the order in which two batches are drawn. */
  lemma CoverageOrderIndependent(a: seq<Segment>, b: seq<Segment>, diags: bool, p: Point)
    ensures Coverage(a + b, diags, p) == Coverage(b + a, diags, p)
  {
    CoverageConcat(a, b, diags, p);
    CoverageConcat(b, a, diags, p);
  }

  /** The final map does not depend on the order in which the segments are
      drawn at all: any rearrangement of them gives every point the same count. */
  lemma {:induction false} CoveragePermutation(a: seq<Segment>, b: seq<Segment>, diags: bool, p: Point)
    requires multiset(a) == multiset(b)
    ensures Coverage(a, diags, p) == Coverage(b, diags, p)
    decreases |a|
  {
    if a == [] {
      assert |b| == |multiset(b)| == 0;
    } else {
      var x := a[|a| - 1];
      assert x in multiset(b);
      var k :| 0 <= k < |b| && b[k] == x;
      RemoveLast(a, b, k);
      CoveragePermutation(a[..|a| - 1], b[..k] + b[k + 1..], diags, p);
      CoverageWithout(b, k, diags, p);
    }
  }

  /** Taking the last element off one arrangement and the same element off
      another leaves two arrangements of the same elements. */
  lemma RemoveLast<T>(a: seq<T>, b: seq<T>, k: nat)
    requires multiset(a) == multiset(b) && a != [] && k < |b| && b[k] == a[|a| - 1]
    ensures multiset(a[..|a| - 1]) == multiset(b[..k] + b[k + 1..])
  {
    var x := b[k];
    var m, n := multiset(a[..|a| - 1]), multiset(b[..k] + b[k + 1..]);
    assert a == a[..|a| - 1] + [x];
    assert b == b[..k] + [x] + b[k + 1..];
    assert m + multiset{x} == n + multiset{x};
    forall y ensures m[y] == n[y] {
      assert (m + multiset{x})[y] == (n + multiset{x})[y];
    }
  }

  /** Drawing all segments but segment k, and then segment k, gives the same counts. */
  lemma CoverageWithout(b: seq<Segment>, k: nat, diags: bool, p: Point)
    requires k < |b|
    ensures Coverage(b, diags, p) ==
            Coverage(b[..k] + b[k + 1..], diags, p) + (if Covers(b[k], diags, p) then 1 else 0)
  {
    assert b == b[..k] + [b[k]] + b[k + 1..];
    CoverageConcat(b[..k] + [b[k]], b[k + 1..], diags, p);
    CoverageConcat(b[..k], [b[k]], diags, p);
    CoverageConcat(b[..k], b[k + 1..], diags, p);
    assert [b[k]][..0] == b[..0];
  }

  // ---------------------------------------------------------------------------
  // Parsing "x1,y1 -> x2,y2"

  /** The first index at or after `from` holding c (str::find). */
  function FindChar(s: string, c: char, from: nat): (r: Option<nat>)
    ensures r.Some? ==> from <= r.value < |s| && s[r.value] == c &&
                        forall k :: from <= k < r.value ==> s[k] != c
    ensures r.None? ==> forall k :: from <= k < |s| ==> s[k] != c
    decreases |s| - from
  {
    if from >= |s| then None
    else if s[from] == c then Some(from)
    else FindChar(s, c, from + 1)
  }

  /** The last index below `upTo` holding c (str::rfind). */
  function FindLastChar(s: string, c: char, upTo: nat): (r: Option<nat>)
    requires upTo <= |s|
    ensures r.Some? ==> r.value < upTo && s[r.value] == c &&
                        forall k :: r.value < k < upTo ==> s[k] != c
    ensures r.None? ==> forall k :: 0 <= k < upTo ==> s[k] != c
  {
    if upTo == 0 then None
    else if s[upTo - 1] == c then Some(upTo - 1)
    else FindLastChar(s, c, upTo - 1)
  }

  /** pat occurs in s at index k. */
  predicate OccursAt(s: string, pat: string, k: nat)
  {
    k + |pat| <= |s| && s[k..k + |pat|] == pat
  }

  /** The first index at or after `from` where pat occurs (str::find with a &str). */
  function FindText(s: string, pat: string, from: nat): (r: Option<nat>)
    ensures r.Some? ==> from <= r.value && OccursAt(s, pat, r.value) &&
                        forall k :: from <= k < r.value ==> !OccursAt(s, pat, k)
    ensures r.None? ==> forall k :: from <= k ==> !OccursAt(s, pat, k)
    decreases |s| - from
  {
    if from + |pat| > |s| then None
    else if s[from..from + |pat|] == pat then Some(from)
    else FindText(s, pat, from + 1)
  }

  predicate IsDigit(c: char) { '0' <= c <= '9' }

  predicate AllDigits(s: string)
  {
    forall k :: 0 <= k < |s| ==> IsDigit(s[k])
  }

  /** The value of the decimal digits s[start..n]. */
  function ValueFrom(s: string, start: nat, n: nat): nat
    requires n <= |s|
  {
    if n <= start then 0
    else 10 * ValueFrom(s, start, n - 1) + (if IsDigit(s[n - 1]) then (s[n - 1] - '0') as nat else 0)
  }

  const U32Limit: nat := 0x1_0000_0000

  /** Where the digits of a number start: after an optional '+'. */
  function DigitsStart(s: string): nat
  {
    if |s| > 0 && s[0] == '+' then 1 else 0
  }

  /** At least one decimal digit after the optional '+', and nothing else. */
  predicate U32Syntax(s: string)
  {
    DigitsStart(s) < |s| && forall k :: DigitsStart(s) <= k < |s| ==> IsDigit(s[k])
  }

  /** u32's from_str: an optional '+' followed by at least one decimal digit,
      with a value below 2^32; anything else is an error (`None`). */
  function ParseU32(s: string): (r: Option<nat>)
    ensures r.Some? ==> r.value < U32Limit
  {
    if U32Syntax(s) && ValueFrom(s, DigitsStart(s), |s|) < U32Limit
    then Some(ValueFrom(s, DigitsStart(s), |s|))
    else None
  }

  /** coords_from_string: x1 ends at the first comma, y1 at the first " -> ",
      x2 at the last comma. `None` stands for the panics: a separator that
      is missing, fields out of order (a slice whose start passes its end),
      or a field that is not a u32. */
  function CoordsFromString(s: string): (r: Option<Segment>)
    ensures r.Some? ==> FindSeparators(s).Some?
    ensures r.Some? ==> r.value.0.0 < U32Limit && r.value.0.1 < U32Limit
                        && r.value.1.0 < U32Limit && r.value.1.1 < U32Limit
  {
    var separators := FindSeparators(s);
    if separators.None? then None else ParseFields(s, separators.value)
  }

  /** The first comma, the first arrow and the last comma, provided they
      delimit four (possibly empty) fields in this order. */
  function FindSeparators(s: string): (r: Option<(nat, nat, nat)>)
    ensures r.Some? ==> r.value.0 + 1 <= r.value.1 && r.value.1 + 4 <= r.value.2 < |s|
  {
    var firstComma, arrow, secondComma := FindChar(s, ',', 0), FindText(s, " -> ", 0), FindLastChar(s, ',', |s|);
    if firstComma.None? || arrow.None? || secondComma.None? then None
    else if firstComma.value + 1 > arrow.value || arrow.value + 4 > secondComma.value then None
    else Some((firstComma.value, arrow.value, secondComma.value))
  }

  /** The four numbers between the separators. */
  function ParseFields(s: string, separators: (nat, nat, nat)): (r: Option<Segment>)
    requires separators.0 + 1 <= separators.1 && separators.1 + 4 <= separators.2 < |s|
    ensures r.Some? ==> r.value.0.0 < U32Limit && r.value.0.1 < U32Limit
                        && r.value.1.0 < U32Limit && r.value.1.1 < U32Limit
  {
    var (i, j, k) := separators;
    var x1, y1, x2, y2 := ParseU32(s[..i]), ParseU32(s[i + 1..j]), ParseU32(s[j + 4..k]), ParseU32(s[k + 1..]);
    if x1.Some? && y1.Some? && x2.Some? && y2.Some? then Some(((x1.value, y1.value), (x2.value, y2.value)))
    else None
  }

  /** The decimal digits of n, without sign or leading zeros. */
  function Decimal(n: nat): (r: string)
    ensures r != [] && AllDigits(r)
  {
    if n < 10 then [('0' as int + n) as char] else Decimal(n / 10) + [('0' as int + n % 10) as char]
  }

  /** The input line a segment is written as. */
  function Format(line: Segment): string
  {
    var ((x1, y1), (x2, y2)) := line;
    Decimal(x1) + "," + Decimal(y1) + " -> " + Decimal(x2) + "," + Decimal(y2)
  }

  /** The digits of n, read back, are worth n. */
  lemma {:induction false} DecimalValue(n: nat)
    ensures ValueFrom(Decimal(n), 0, |Decimal(n)|) == n
  {
    if n >= 10 {
      var d := Decimal(n);
      var e := Decimal(n / 10);
      DecimalValue(n / 10);
      ValueFromPrefix(d, e, |e|);
    }
  }

  /** The value of a prefix depends only on that prefix. */
  lemma {:induction false} ValueFromPrefix(s: string, t: string, n: nat)
    requires n <= |s| && n <= |t| && s[..n] == t[..n]
    ensures ValueFrom(s, 0, n) == ValueFrom(t, 0, n)
  {
    if n > 0 {
      assert s[n - 1] == s[..n][n - 1] == t[..n][n - 1] == t[n - 1];
      assert s[..n - 1] == s[..n][..n - 1];
      assert t[..n - 1] == t[..n][..n - 1];
      ValueFromPrefix(s, t, n - 1);
    }
  }

  /** Printing a u32 in decimal and parsing it back gives the number. */
  lemma DecimalRoundTrip(n: nat)
    requires n < U32Limit
    ensures ParseU32(Decimal(n)) == Some(n)
  {
    DecimalValue(n);
  }

  /** Every segment with u32 coordinates is read back from its input line. */
  lemma CoordsRoundTrip(line: Segment)
    requires line.0.0 < U32Limit && line.0.1 < U32Limit && line.1.0 < U32Limit && line.1.1 < U32Limit
    ensures CoordsFromString(Format(line)) == Some(line)
  {
    var ((x1, y1), (x2, y2)) := line;
    DecimalRoundTrip(x1);
    DecimalRoundTrip(y1);
    DecimalRoundTrip(x2);
    DecimalRoundTrip(y2);
    LineOfFields(Decimal(x1), Decimal(y1), Decimal(x2), Decimal(y2), line);
  }

  /** A line written from four digit strings that parse as the coordinates
      parses to the segment. */
  lemma LineOfFields(a: string, b: string, c: string, d: string, line: Segment)
    requires AllDigits(a) && AllDigits(b) && AllDigits(d)
    requires ParseU32(a) == Some(line.0.0) && ParseU32(b) == Some(line.0.1)
    requires ParseU32(c) == Some(line.1.0) && ParseU32(d) == Some(line.1.1)
    ensures CoordsFromString(a + "," + b + " -> " + c + "," + d) == Some(line)
  {
    var s := a + "," + b + " -> " + c + "," + d;
    var i, j, k := |a|, |a| + 1 + |b|, |a| + 1 + |b| + 4 + |c|;
    Layout(a, b, c, d);
    SeparatorsFound(s, i, j, k);
    FieldsParsed(s, i, j, k, line);
  }

  /** Where the separators and the four fields of a line written from four
      digit strings lie. */
  lemma Layout(a: string, b: string, c: string, d: string)
    requires AllDigits(a) && AllDigits(b) && AllDigits(d)
    ensures var s := a + "," + b + " -> " + c + "," + d;
            var i, j, k := |a|, |a| + 1 + |b|, |a| + 1 + |b| + 4 + |c|;
            && k < |s|
            && FindChar(s, ',', 0) == Some(i) && FindText(s, " -> ", 0) == Some(j)
            && FindLastChar(s, ',', |s|) == Some(k)
            && s[..i] == a && s[i + 1..j] == b && s[j + 4..k] == c && s[k + 1..] == d
  {
    var s := a + "," + b + " -> " + c + "," + d;
    var i, j, k := |a|, |a| + 1 + |b|, |a| + 1 + |b| + 4 + |c|;
    LayoutSlices(a, b, c, d);
    forall q | 0 <= q < j && q != i ensures IsDigit(s[q]) {
      if q < i { assert s[q] == s[..i][q]; } else { assert s[q] == s[i + 1..j][q - i - 1]; }
    }
    FirstSeparators(s, i, j);
    forall q | k < q < |s| ensures s[q] != ',' {
      assert s[q] == s[k + 1..][q - k - 1];
    }
    FindLastCharAt(s, ',', |s|, k);
  }

  /** The pieces a line is written from, at their positions. */
  lemma LayoutSlices(a: string, b: string, c: string, d: string)
    ensures var s := a + "," + b + " -> " + c + "," + d;
            var i, j, k := |a|, |a| + 1 + |b|, |a| + 1 + |b| + 4 + |c|;
            && k < |s| && s[i] == ',' && s[j..j + 4] == " -> " && s[k] == ','
            && s[..i] == a && s[i + 1..j] == b && s[j + 4..k] == c && s[k + 1..] == d
  {
    var s := a + "," + b + " -> " + c + "," + d;
    var i, j, k := |a|, |a| + 1 + |b|, |a| + 1 + |b| + 4 + |c|;
    assert s[..i] == a;
    assert s[i + 1..j] == b;
    assert s[j + 4..k] == c;
    assert s[k + 1..] == d;
    assert s[j..j + 4] == " -> ";
  }

  /** A comma at i and an arrow at j, with only digits before j otherwise,
      are the first comma and the first arrow. */
  lemma FirstSeparators(s: string, i: nat, j: nat)
    requires i < j && j + 4 <= |s|
    requires forall q :: 0 <= q < j && q != i ==> IsDigit(s[q])
    requires s[i] == ',' && s[j..j + 4] == " -> "
    ensures FindChar(s, ',', 0) == Some(i) && FindText(s, " -> ", 0) == Some(j)
  {
    FindCharAt(s, ',', 0, i);
    forall q | 0 <= q < j ensures !OccursAt(s, " -> ", q) {
      if q + 4 <= |s| {
        assert s[q..q + 4][0] == s[q];
      }
    }
    FindTextAt(s, " -> ", 0, j);
  }

  /** The search for c from `from` stops at the first occurrence at or after `from`. */
  lemma {:induction false} FindCharAt(s: string, c: char, from: nat, at: nat)
    requires from <= at < |s| && s[at] == c
    requires forall q :: from <= q < at ==> s[q] != c
    ensures FindChar(s, c, from) == Some(at)
    decreases at - from
  {
    if from < at {
      FindCharAt(s, c, from + 1, at);
    }
  }

  /** The backward search for c below upTo stops at the last occurrence below upTo. */
  lemma {:induction false} FindLastCharAt(s: string, c: char, upTo: nat, at: nat)
    requires at < upTo <= |s| && s[at] == c
    requires forall q :: at < q < upTo ==> s[q] != c
    ensures FindLastChar(s, c, upTo) == Some(at)
    decreases upTo
  {
    if at < upTo - 1 {
      FindLastCharAt(s, c, upTo - 1, at);
    }
  }

  /** The search for pat from `from` stops at the first occurrence at or after `from`. */
  lemma {:induction false} FindTextAt(s: string, pat: string, from: nat, at: nat)
    requires from <= at && OccursAt(s, pat, at)
    requires forall q :: from <= q < at ==> !OccursAt(s, pat, q)
    ensures FindText(s, pat, from) == Some(at)
    decreases at - from
  {
    if from < at {
      FindTextAt(s, pat, from + 1, at);
    }
  }

  /** Four fields that are u32s in decimal parse to the segment. */
  lemma FieldsParsed(s: string, i: nat, j: nat, k: nat, line: Segment)
    requires i + 1 <= j && j + 4 <= k < |s|
    requires ParseU32(s[..i]) == Some(line.0.0) && ParseU32(s[i + 1..j]) == Some(line.0.1)
    requires ParseU32(s[j + 4..k]) == Some(line.1.0) && ParseU32(s[k + 1..]) == Some(line.1.1)
    ensures ParseFields(s, (i, j, k)) == Some(line)
  {
  }

  /** Separators found in the right order are the ones the parser uses. */
  lemma SeparatorsFound(s: string, i: nat, j: nat, k: nat)
    requires FindChar(s, ',', 0) == Some(i) && FindText(s, " -> ", 0) == Some(j)
    requires FindLastChar(s, ',', |s|) == Some(k)
    requires i + 1 <= j && j + 4 <= k
    ensures FindSeparators(s) == Some((i, j, k))
  {
  }

  /** The unit test of the program. */
  lemma CoordsExample()
    ensures CoordsFromString("860,786 -> 701,945") == Some(((860, 786), (701, 945)))
  {
    ExampleLine();
    CoordsRoundTrip(((860, 786), (701, 945)));
  }

  /** The line of the unit test is the way its segment is written. */
  lemma ExampleLine()
    ensures Format(((860, 786), (701, 945))) == "860,786 -> 701,945"
  {
    ExampleNumbers();
    assert "860" + "," + "786" + " -> " + "701" + "," + "945" == "860,786 -> 701,945";
  }

  /** The decimal forms of the four numbers of the unit test. */
  lemma ExampleNumbers()
    ensures Decimal(860) == "860" && Decimal(786) == "786" && Decimal(701) == "701" && Decimal(945) == "945"
  {
    assert Decimal(860) == "860" by { assert Decimal(86) == "86"; }
    assert Decimal(786) == "786" by { assert Decimal(78) == "78"; }
    assert Decimal(701) == "701" by { assert Decimal(70) == "70"; }
    assert Decimal(945) == "945" by { assert Decimal(94) == "94"; }
  }
}
