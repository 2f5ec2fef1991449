/**
 * Day 9: red tiles at the corners of an axis-aligned polygon. Part 1 is the
 * largest rectangle, counted in grid cells, with two red tiles at opposite
 * corners; part 2 the largest such rectangle that no edge of the polygon
 * cuts through.
 *
 * The polygon's edges are kept as two lists of lines, vertical ones as
 * (x, y_min, y_max) and horizontal ones as (y, x_min, x_max), each sorted by
 * its first field so that a pair of binary searches finds the lines whose
 * fixed coordinate lies strictly inside the rectangle.
 */
module Day09 {
  import opened Parsing
  import opened Sorting
  import opened Bisect

  /** A red tile, (x, y). */
  type Point = (int, int)

  /** A polygon edge: its fixed coordinate, then the two ends of its span on the other axis, lower first. */
  type Line = (int, int, int)

  /** A candidate rectangle: its area, then the indexes of its two corners, the first the larger. */
  type Candidate = (int, int, int)

  // ---------------------------------------------------------------------
  // Reading the input

  /** One line of the input, `x,y`; None where the program raises (not two fields, or a field that is not an integer). */
  function ParsePoint(line: string): (p: Option<Point>)
    ensures p.Some? ==> |Split(Strip(line), ",")| == 2
  {
    var fields := Split(Strip(line), ",");
    if |fields| != 2 then None
    else
      var x, y := ParseInt(fields[0]), ParseInt(fields[1]);
      if x.Some? && y.Some? then Some((x.value, y.value)) else None
  }

  /** `_parse_input`: the points, one per line, None if any line fails to parse. */
  function ParsePoints(lines: seq<string>): (r: Option<seq<Point>>)
    ensures r.Some? <==> forall k :: 0 <= k < |lines| ==> ParsePoint(lines[k]).Some?
    ensures r.Some? ==> |r.value| == |lines| && forall k :: 0 <= k < |lines| ==> ParsePoint(lines[k]) == Some(r.value[k])
  {
    if forall k :: 0 <= k < |lines| ==> ParsePoint(lines[k]).Some? then
      Some(seq(|lines|, k requires 0 <= k < |lines| => ParsePoint(lines[k]).value))
    else None
  }

  /** The line `x,y` for a point with natural coordinates. */
  function FormatPoint(x: nat, y: nat): string
  {
    Decimal(x) + "," + Decimal(y)
  }

  /** A written point reads back as itself. */
  lemma ParsePointFormat(x: nat, y: nat)
    ensures ParsePoint(FormatPoint(x, y)) == Some((x, y))
  {
    var line := FormatPoint(x, y);
    assert line[0] == Decimal(x)[0] && line[|line| - 1] == Decimal(y)[|Decimal(y)| - 1];
    StripDigitEnds(line);
    SplitDigitsThen(Decimal(x), ',', Decimal(y));
    SplitDigitsWhole(Decimal(y), ',');
    ParseIntDecimal(x);
    ParseIntDecimal(y);
  }

  // ---------------------------------------------------------------------
  // Areas

  function Abs(v: int): nat
  {
    if v < 0 then -v else v
  }

  function Min(a: int, b: int): int
  {
    if a <= b then a else b
  }

  function Max(a: int, b: int): int
  {
    if a <= b then b else a
  }

  /** `_area`: the number of grid cells of the rectangle with corners a and b, its perimeter included. */
  function Area(a: Point, b: Point): int
  {
    (Abs(a.0 - b.0) + 1) * (Abs(a.1 - b.1) + 1)
  }

  /** The cells of the rectangle with corners a and b, its perimeter included. */
  function Cells(a: Point, b: Point): set<Point>
  {
    set x, y | Min(a.0, b.0) <= x <= Max(a.0, b.0) && Min(a.1, b.1) <= y <= Max(a.1, b.1) :: (x, y)
  }

  /** The cells of column x from row y0 up to y0 + h - 1. */
  function Column(x: int, y0: int, h: nat): set<Point>
  {
    set y | y0 <= y < y0 + h :: (x, y)
  }

  /** The cells of the w columns from x0 and the h rows from y0. */
  function Block(x0: int, w: nat, y0: int, h: nat): set<Point>
  {
    set x, y | x0 <= x < x0 + w && y0 <= y < y0 + h :: (x, y)
  }

  lemma {:induction false} ColumnSize(x: int, y0: int, h: nat)
    ensures |Column(x, y0, h)| == h
  {
    if h > 0 {
      ColumnSize(x, y0, h - 1);
      assert Column(x, y0, h) == Column(x, y0, h - 1) + {(x, y0 + h - 1)};
    } else {
      assert Column(x, y0, h) == {};
    }
  }

  lemma {:induction false} BlockSize(x0: int, w: nat, y0: int, h: nat)
    ensures |Block(x0, w, y0, h)| == w * h
  {
    if w > 0 {
      BlockSize(x0, w - 1, y0, h);
      ColumnSize(x0 + w - 1, y0, h);
      var rest, column := Block(x0, w - 1, y0, h), Column(x0 + w - 1, y0, h);
      forall p | p in Block(x0, w, y0, h)
        ensures p in rest + column
      {
        if p.0 < x0 + w - 1 {
          assert p in rest;
        } else {
          assert p in column;
        }
      }
      assert Block(x0, w, y0, h) == rest + column;
      forall p | p in rest
        ensures p !in column
      {
      }
      assert (w - 1) * h + h == w * h;
    } else {
      assert Block(x0, w, y0, h) == {};
    }
  }

  /** The area counts exactly the cells of the rectangle, perimeter included; it is symmetric, at least 1, and 1 for a single cell. */
  lemma AreaCounts(a: Point, b: Point)
    ensures Area(a, b) == |Cells(a, b)|
    ensures Area(a, b) == Area(b, a) && Area(a, b) >= 1 && Area(a, a) == 1
  {
    var w, h := Abs(a.0 - b.0) + 1, Abs(a.1 - b.1) + 1;
    assert Cells(a, b) == Block(Min(a.0, b.0), w, Min(a.1, b.1), h);
    BlockSize(Min(a.0, b.0), w, Min(a.1, b.1), h);
    assert w * h >= 1 * 1;
  }

  /** `(area(points[i], points[j]), i, j) for i in range(m) for j in range(i)`. */
  function Candidates(points: seq<Point>, m: int): (c: seq<Candidate>)
    requires m <= |points|
    decreases m
  {
    if m <= 0 then []
    else Candidates(points, m - 1) + seq(m - 1, j requires 0 <= j < m - 1 => (Area(points[m - 1], points[j]), m - 1, j))
  }

  /** The candidates are the pairs j < i < m, each with its area, once each. */
  lemma {:induction false} CandidatePairs(points: seq<Point>, m: nat)
    requires m <= |points|
    ensures forall c: Candidate :: c in Candidates(points, m) <==>
      0 <= c.2 < c.1 < m && c.0 == Area(points[c.1], points[c.2])
  {
    if m > 0 {
      CandidatePairs(points, m - 1);
      var before := Candidates(points, m - 1);
      var row := seq(m - 1, j requires 0 <= j < m - 1 => (Area(points[m - 1], points[j]), m - 1, j));
      assert Candidates(points, m) == before + row;
      forall c: Candidate | c in Candidates(points, m)
        ensures 0 <= c.2 < c.1 < m && c.0 == Area(points[c.1], points[c.2])
      {
        if c !in before {
          var j :| 0 <= j < |row| && row[j] == c;
        }
      }
      forall c: Candidate | 0 <= c.2 < c.1 < m && c.0 == Area(points[c.1], points[c.2])
        ensures c in Candidates(points, m)
      {
        if c.1 == m - 1 {
          assert row[c.2] == c;
        } else {
          assert c in before;
        }
      }
    }
  }

  // ---------------------------------------------------------------------
  // Part 1

  /** Python's `max` over the areas of a non-empty list of candidates. */
  function MaxArea(c: seq<Candidate>): int
    requires c != []
  {
    if |c| == 1 then c[0].0 else Max(MaxArea(c[..|c| - 1]), c[|c| - 1].0)
  }

  /** The maximum is one of the areas, and no area exceeds it. */
  lemma {:induction false} MaxAreaIsMax(c: seq<Candidate>)
    requires c != []
    ensures exists k :: 0 <= k < |c| && c[k].0 == MaxArea(c)
    ensures forall k :: 0 <= k < |c| ==> c[k].0 <= MaxArea(c)
  {
    if |c| > 1 {
      var init := c[..|c| - 1];
      MaxAreaIsMax(init);
      if c[|c| - 1].0 < MaxArea(init) {
        var k :| 0 <= k < |init| && init[k].0 == MaxArea(init);
        assert c[k] == init[k];
      } else {
        assert c[|c| - 1].0 == MaxArea(c);
      }
      forall t | 0 <= t < |c| - 1
        ensures c[t].0 <= MaxArea(c)
      {
        assert c[t] == init[t];
      }
    } else {
      assert c[0].0 == MaxArea(c);
    }
  }

  /** What `part_1` returns: the largest area over the pairs of red tiles; None when the input does not parse or has fewer than two points (`max` of nothing raises). */
  function Part1Spec(lines: seq<string>): Option<int>
  {
    var points := ParsePoints(lines);
    if points.None? || |points.value| < 2 then None
    else
      CandidatePairs(points.value, |points.value|);
      assert (Area(points.value[1], points.value[0]), 1, 0) in Candidates(points.value, |points.value|);
      Some(MaxArea(Candidates(points.value, |points.value|)))
  }

  /** No pair of points has an area above the largest candidate area. */
  lemma CandidatesBelow(points: seq<Point>, i: int, j: int)
    requires 0 <= j < i < |points|
    ensures Candidates(points, |points|) != []
    ensures Area(points[i], points[j]) <= MaxArea(Candidates(points, |points|))
  {
    var c := Candidates(points, |points|);
    var e: Candidate := (Area(points[i], points[j]), i, j);
    CandidatePairs(points, |points|);
    assert e in c;
    var t :| 0 <= t < |c| && c[t] == e;
    MaxAreaIsMax(c);
  }

  /** The largest candidate area is the area of some pair of points. */
  lemma CandidatesAttained(points: seq<Point>)
    requires |points| >= 2
    ensures Candidates(points, |points|) != []
    ensures exists i, j :: 0 <= j < i < |points| && MaxArea(Candidates(points, |points|)) == Area(points[i], points[j])
  {
    var c := Candidates(points, |points|);
    CandidatesBelow(points, 1, 0);
    MaxAreaIsMax(c);
    var k :| 0 <= k < |c| && c[k].0 == MaxArea(c);
    CandidatePairs(points, |points|);
    assert c[k] in c;
  }

  /** `part_1` is the area of some pair of red tiles and at least that of every pair. */
  lemma Part1Largest(lines: seq<string>)
    requires Part1Spec(lines).Some?
    ensures var points := ParsePoints(lines).value;
      (exists i, j :: 0 <= j < i < |points| && Part1Spec(lines).value == Area(points[i], points[j])) &&
      forall i, j :: 0 <= j < i < |points| ==> Area(points[i], points[j]) <= Part1Spec(lines).value
  {
    var points := ParsePoints(lines).value;
    CandidatesAttained(points);
    forall i, j | 0 <= j < i < |points|
      ensures Area(points[i], points[j]) <= Part1Spec(lines).value
    {
      CandidatesBelow(points, i, j);
    }
  }

  // ---------------------------------------------------------------------
  // The polygon's edges

  /** Coordinate `axis` (0 for x, 1 for y) of a point. */
  function Coord(p: Point, axis: int): int
  {
    if axis == 0 then p.0 else p.1
  }

  /** The list of an axis: the vertical lines for 0, the horizontal ones for 1. */
  function Along(lines: (seq<Line>, seq<Line>), axis: int): seq<Line>
  {
    if axis == 0 then lines.0 else lines.1
  }

  /** The axis of the edge from a to b: 0 (vertical) when the x coordinates agree, 1 otherwise. */
  function AxisOf(a: Point, b: Point): int
  {
    if a.0 == b.0 then 0 else 1
  }

  /** The line of the edge from a to b. */
  function LineOf(a: Point, b: Point): (l: Line)
    ensures l.1 <= l.2
  {
    var axis := AxisOf(a, b);
    (Coord(a, axis), Min(Coord(a, 1 - axis), Coord(b, 1 - axis)), Max(Coord(a, 1 - axis), Coord(b, 1 - axis)))
  }

  /** The edge from a to b runs along its line: both ends share the fixed coordinate when a and b share a row or column, and the span runs from one end to the other. */
  lemma LineOfEdge(a: Point, b: Point)
    requires a.0 == b.0 || a.1 == b.1
    ensures var l, axis := LineOf(a, b), AxisOf(a, b);
      l.0 == Coord(a, axis) == Coord(b, axis) &&
      {l.1, l.2} == {Coord(a, 1 - axis), Coord(b, 1 - axis)}
  {
  }

  /** The lines along `axis` of the edges from points[i] to the next point (cyclically), for i below m. */
  function Lines(points: seq<Point>, m: int, axis: int): (ls: seq<Line>)
    requires m <= |points|
    ensures |ls| <= Max(m, 0)
    decreases m
  {
    if m <= 0 then []
    else
      var a, b := points[m - 1], points[m % |points|];
      Lines(points, m - 1, axis) + if AxisOf(a, b) == axis then [LineOf(a, b)] else []
  }

  /** Every edge gives exactly one line, on one of the two lists, with its lower end first. */
  lemma {:induction false} LinesCount(points: seq<Point>, m: nat)
    requires m <= |points|
    ensures |Lines(points, m, 0)| + |Lines(points, m, 1)| == m
    ensures forall axis, k :: 0 <= axis < 2 && 0 <= k < |Lines(points, m, axis)| ==>
      Lines(points, m, axis)[k].1 <= Lines(points, m, axis)[k].2
  {
    if m > 0 {
      LinesCount(points, m - 1);
    }
  }

  /** The loop of `part_2` that walks the polygon and appends each edge's line to its list. */
  method BuildLines(points: seq<Point>) returns (vertical: seq<Line>, horizontal: seq<Line>)
    ensures vertical == Lines(points, |points|, 0) && horizontal == Lines(points, |points|, 1)
  {
    vertical, horizontal := [], [];
    for i := 0 to |points|
      invariant vertical == Lines(points, i, 0) && horizontal == Lines(points, i, 1)
    {
      var a := points[i];
      var b := points[(i + 1) % |points|];
      var axis := if a.0 == b.0 then 0 else 1;
      var line := (Coord(a, axis), Min(Coord(a, 1 - axis), Coord(b, 1 - axis)), Max(Coord(a, 1 - axis), Coord(b, 1 - axis)));
      if axis == 0 {
        vertical := vertical + [line];
      } else {
        horizontal := horizontal + [line];
      }
    }
  }

  /** The first fields of a list of lines: the keys the binary searches use. */
  function Keys(ls: seq<Line>): (keys: seq<int>)
    ensures |keys| == |ls| && forall k :: 0 <= k < |ls| ==> keys[k] == ls[k].0
  {
    seq(|ls|, k requires 0 <= k < |ls| => ls[k].0)
  }

  /** `lines[axis].sort()` orders the lines by their first field, as the binary searches require. */
  lemma LinesSorted(ls: seq<Line>)
    ensures SortedKeys(Keys(SortBy(ls, TripleLe)))
  {
    TripleLeOrders();
    SortBySorted(ls, TripleLe);
  }

  // ---------------------------------------------------------------------
  // The check of part 2

  /** The bounds of the rectangle with corners a and b on `axis`. */
  function Lower(a: Point, b: Point, axis: int): int
  {
    Min(Coord(a, axis), Coord(b, axis))
  }

  function Upper(a: Point, b: Point, axis: int): int
  {
    Max(Coord(a, axis), Coord(b, axis))
  }

  /** A line along `axis` cuts the rectangle: its fixed coordinate lies strictly between the rectangle's bounds on that axis, and its span overlaps the open span of the rectangle on the other axis. */
  predicate Crosses(l: Line, a: Point, b: Point, axis: int)
  {
    Lower(a, b, axis) < l.0 < Upper(a, b, axis) &&
    Lower(a, b, 1 - axis) < l.2 && l.1 < Upper(a, b, 1 - axis)
  }

  /** What `_are_all_lines_outside_the_rectangle` decides: no line of either list cuts the rectangle. */
  predicate Outside(lines: (seq<Line>, seq<Line>), a: Point, b: Point)
  {
    forall axis, k :: 0 <= axis < 2 && 0 <= k < |Along(lines, axis)| ==> !Crosses(Along(lines, axis)[k], a, b, axis)
  }

  /** t lies on the closed span from lo to hi. */
  predicate OnSpan(t: real, lo: int, hi: int)
  {
    lo as real <= t <= hi as real
  }

  /** t lies strictly between lo and hi. */
  predicate Between(t: real, lo: int, hi: int)
  {
    lo as real < t < hi as real
  }

  /** When the rectangle has an open inside on the other axis, a line cuts it exactly when some point of the line lies strictly inside it (taking the plane as continuous): lines on the perimeter do not count. */
  lemma CrossesInterior(l: Line, a: Point, b: Point, axis: int)
    requires l.1 <= l.2 && 0 <= axis < 2 && Lower(a, b, 1 - axis) < Upper(a, b, 1 - axis)
    ensures Crosses(l, a, b, axis) <==>
      Lower(a, b, axis) < l.0 < Upper(a, b, axis) &&
      exists t :: OnSpan(t, l.1, l.2) && Between(t, Lower(a, b, 1 - axis), Upper(a, b, 1 - axis))
  {
    var lo, hi := Lower(a, b, 1 - axis), Upper(a, b, 1 - axis);
    if Crosses(l, a, b, axis) {
      var m1, m2 := Max(l.1, lo), Min(l.2, hi);
      assert m1 <= m2;
      var t := (m1 as real + m2 as real) / 2.0;
      assert OnSpan(t, l.1, l.2) && Between(t, lo, hi);
    }
  }

  /** `_are_all_lines_outside_the_rectangle`: for each axis, two binary searches select the lines whose fixed coordinate lies strictly between the rectangle's bounds, and any of them overlapping the rectangle's open span on the other axis fails the check. */
  method AllOutside(lines: (seq<Line>, seq<Line>), a: Point, b: Point) returns (ok: bool)
    requires SortedKeys(Keys(lines.0)) && SortedKeys(Keys(lines.1))
    ensures ok == Outside(lines, a, b)
  {
    for axis := 0 to 2
      invariant forall ax, k :: 0 <= ax < axis && 0 <= k < |Along(lines, ax)| ==> !Crosses(Along(lines, ax)[k], a, b, ax)
    {
      var ls := Along(lines, axis);
      var lowerAxis, upperAxis := Lower(a, b, axis), Upper(a, b, axis);
      var start := BisectRight(Keys(ls), lowerAxis);
      var end := BisectLeft(Keys(ls), upperAxis);
      var lower, upper := Lower(a, b, 1 - axis), Upper(a, b, 1 - axis);
      var k := start;
      while k < end
        invariant start <= k <= |ls| && (start <= end ==> k <= end)
        invariant forall t :: start <= t < k ==> !Crosses(ls[t], a, b, axis)
      {
        var line := ls[k];
        if lower < line.2 && line.1 < upper {
          assert Crosses(Along(lines, axis)[k], a, b, axis);
          return false;
        }
        k := k + 1;
      }
      forall t | 0 <= t < |ls|
        ensures !Crosses(ls[t], a, b, axis)
      {
        if t < start {
          assert Keys(ls)[t] <= lowerAxis;
        } else if t >= end {
          assert upperAxis <= Keys(ls)[t];
        }
      }
    }
    return true;
  }

  // ---------------------------------------------------------------------
  // Part 2

  /** The two lists of lines, each sorted. */
  function PolygonLines(points: seq<Point>): (lines: (seq<Line>, seq<Line>))
  {
    (SortBy(Lines(points, |points|, 0), TripleLe), SortBy(Lines(points, |points|, 1), TripleLe))
  }

  /** Both corners of every candidate are indexes of points. */
  predicate InRange(c: seq<Candidate>, n: int)
  {
    forall k :: 0 <= k < |c| ==> 0 <= c[k].1 < n && 0 <= c[k].2 < n
  }

  /** `areas`: the candidates, largest area first (ties broken by the larger indexes first). */
  function Ranked(points: seq<Point>): (c: seq<Candidate>)
    ensures InRange(c, |points|)
  {
    var c := SortBy(Candidates(points, |points|), TripleGe);
    CandidatePairs(points, |points|);
    forall k | 0 <= k < |c|
      ensures 0 <= c[k].1 < |points| && 0 <= c[k].2 < |points|
    {
      assert c[k] in multiset(c);
    }
    c
  }

  /** No line cuts the rectangle of the candidate's two corners. */
  predicate Fits(lines: (seq<Line>, seq<Line>), points: seq<Point>, c: Candidate)
    requires 0 <= c.1 < |points| && 0 <= c.2 < |points|
  {
    Outside(lines, points[c.1], points[c.2])
  }

  /** The loop of `part_2` from position k on: the area of the first candidate that fits, 0 when none does. */
  function FirstFit(lines: (seq<Line>, seq<Line>), points: seq<Point>, c: seq<Candidate>, k: nat): int
    requires InRange(c, |points|) && k <= |c|
    decreases |c| - k
  {
    if k == |c| then 0
    else if Fits(lines, points, c[k]) then c[k].0
    else FirstFit(lines, points, c, k + 1)
  }

  /** What `part_2` returns; None when the input does not parse. */
  function Part2Spec(input: seq<string>): Option<int>
  {
    var points := ParsePoints(input);
    if points.None? then None
    else Some(FirstFit(PolygonLines(points.value), points.value, Ranked(points.value), 0))
  }

  /** On candidates in descending order, the first that fits has the largest area of all that fit; with none fitting the result is 0. */
  lemma {:induction false} FirstFitBest(lines: (seq<Line>, seq<Line>), points: seq<Point>, c: seq<Candidate>, k: nat)
    requires InRange(c, |points|) && k <= |c| && Sorted(c, TripleGe)
    ensures var r := FirstFit(lines, points, c, k);
      (forall t :: k <= t < |c| && Fits(lines, points, c[t]) ==> c[t].0 <= r) &&
      ((forall t :: k <= t < |c| ==> !Fits(lines, points, c[t])) ==> r == 0) &&
      ((exists t :: k <= t < |c| && Fits(lines, points, c[t])) ==>
        exists t :: k <= t < |c| && Fits(lines, points, c[t]) && c[t].0 == r)
    decreases |c| - k
  {
    if k < |c| {
      if Fits(lines, points, c[k]) {
        forall t | k <= t < |c| && Fits(lines, points, c[t])
          ensures c[t].0 <= c[k].0
        {
          if t > k {
            assert TripleGe(c[k], c[t]);
          }
        }
      } else {
        FirstFitBest(lines, points, c, k + 1);
      }
    }
  }

  /** Every pair j < i has its place among the ranked candidates. */
  lemma RankedIndex(points: seq<Point>, i: int, j: int) returns (t: nat)
    requires 0 <= j < i < |points|
    ensures t < |Ranked(points)| && Ranked(points)[t] == (Area(points[i], points[j]), i, j)
  {
    var e: Candidate := (Area(points[i], points[j]), i, j);
    CandidatePairs(points, |points|);
    assert e in multiset(Ranked(points));
    t :| 0 <= t < |Ranked(points)| && Ranked(points)[t] == e;
  }

  /** Every ranked candidate is a pair j < i with its area. */
  lemma RankedPair(points: seq<Point>, t: int)
    requires 0 <= t < |Ranked(points)|
    ensures var c := Ranked(points)[t];
      0 <= c.2 < c.1 < |points| && c.0 == Area(points[c.1], points[c.2])
  {
    CandidatePairs(points, |points|);
    assert Ranked(points)[t] in multiset(Candidates(points, |points|));
  }

  /** Over the points, the loop returns the largest area among the pairs whose rectangle no line cuts, and 0 when there is no such pair. */
  lemma RankedBest(points: seq<Point>)
    ensures var lines := PolygonLines(points);
      var r := FirstFit(lines, points, Ranked(points), 0);
      (forall i, j :: 0 <= j < i < |points| && Outside(lines, points[i], points[j]) ==> Area(points[i], points[j]) <= r) &&
      ((forall i, j :: 0 <= j < i < |points| ==> !Outside(lines, points[i], points[j])) ==> r == 0) &&
      (r != 0 ==> exists i, j :: 0 <= j < i < |points| && Outside(lines, points[i], points[j]) && Area(points[i], points[j]) == r)
  {
    var lines := PolygonLines(points);
    var c := Ranked(points);
    var r := FirstFit(lines, points, c, 0);
    TripleLeOrders();
    SortBySorted(Candidates(points, |points|), TripleGe);
    FirstFitBest(lines, points, c, 0);
    forall i, j | 0 <= j < i < |points| && Outside(lines, points[i], points[j])
      ensures Area(points[i], points[j]) <= r
    {
      var t := RankedIndex(points, i, j);
    }
    if forall i, j :: 0 <= j < i < |points| ==> !Outside(lines, points[i], points[j]) {
      forall t | 0 <= t < |c|
        ensures !Fits(lines, points, c[t])
      {
        RankedPair(points, t);
      }
    }
    if r != 0 {
      var t :| 0 <= t < |c| && Fits(lines, points, c[t]) && c[t].0 == r;
      RankedPair(points, t);
    }
  }

  /** `part_2` is the largest area among the pairs of red tiles whose rectangle no edge cuts, and 0 when there is no such pair. */
  lemma Part2Best(input: seq<string>)
    requires ParsePoints(input).Some?
    ensures var points := ParsePoints(input).value;
      var lines := PolygonLines(points);
      Part2Spec(input).Some? &&
      var r := Part2Spec(input).value;
      (forall i, j :: 0 <= j < i < |points| && Outside(lines, points[i], points[j]) ==> Area(points[i], points[j]) <= r) &&
      ((forall i, j :: 0 <= j < i < |points| ==> !Outside(lines, points[i], points[j])) ==> r == 0) &&
      (r != 0 ==> exists i, j :: 0 <= j < i < |points| && Outside(lines, points[i], points[j]) && Area(points[i], points[j]) == r)
  {
    RankedBest(ParsePoints(input).value);
  }

  /** `part_2` never exceeds `part_1`. */
  lemma Part2AtMostPart1(input: seq<string>)
    requires Part1Spec(input).Some?
    ensures Part2Spec(input).Some? && Part2Spec(input).value <= Part1Spec(input).value
  {
    var points := ParsePoints(input).value;
    RankedBest(points);
    CandidatesAttained(points);
    var r := Part2Spec(input).value;
    if r != 0 {
      var lines := PolygonLines(points);
      var i, j :| 0 <= j < i < |points| && Outside(lines, points[i], points[j]) && Area(points[i], points[j]) == r;
      CandidatesBelow(points, i, j);
    } else {
      var i, j :| 0 <= j < i < |points| && MaxArea(Candidates(points, |points|)) == Area(points[i], points[j]);
      AreaCounts(points[i], points[j]);
    }
  }

  /** The loop of `part_2`: try the candidates from the largest down and return the first area whose rectangle passes the check. */
  method Part2(input: seq<string>) returns (r: Option<int>)
    ensures r == Part2Spec(input)
  {
    var parsed := ParsePoints(input);
    if parsed.None? {
      return None;
    }
    var points := parsed.value;
    var vertical, horizontal := BuildLines(points);
    vertical := SortBy(vertical, TripleLe);
    horizontal := SortBy(horizontal, TripleLe);
    LinesSorted(Lines(points, |points|, 0));
    LinesSorted(Lines(points, |points|, 1));
    var lines := (vertical, horizontal);
    var areas := Ranked(points);
    for k := 0 to |areas|
      invariant FirstFit(lines, points, areas, 0) == FirstFit(lines, points, areas, k)
    {
      var (area, i, j) := areas[k];
      var ok := AllOutside(lines, points[i], points[j]);
      if ok {
        return Some(area);
      }
    }
    return Some(0);
  }

  // ---------------------------------------------------------------------
  // The puzzle's example

  /** The red tiles of the example, in order around the polygon. */
  const ExampleTiles: seq<(nat, nat)> := [(7, 1), (11, 1), (11, 7), (9, 7), (9, 5), (2, 5), (2, 3), (7, 3)]
  const ExamplePoints: seq<Point> := ExampleTiles

  /** The example's input file, one line per tile. */
  function ExampleInput(): (lines: seq<string>)
    ensures |lines| == 8
  {
    seq(8, k requires 0 <= k < 8 => FormatPoint(ExampleTiles[k].0, ExampleTiles[k].1))
  }

  lemma ExampleParses()
    ensures ParsePoints(ExampleInput()) == Some(ExamplePoints)
  {
    var lines := ExampleInput();
    forall k | 0 <= k < 8
      ensures ParsePoint(lines[k]) == Some(ExamplePoints[k])
    {
      ParsePointFormat(ExampleTiles[k].0, ExampleTiles[k].1);
    }
    assert ParsePoints(lines).value == ExamplePoints;
  }

  /** No two example tiles span more than 50 cells. */
  lemma ExampleAreasAtMost50(i: int, j: int)
    requires 0 <= j < i < 8
    ensures Area(ExamplePoints[i], ExamplePoints[j]) <= 50
  {
  }

  /** The largest example rectangle spans 50 cells. */
  lemma ExampleLargest()
    ensures |ExamplePoints| >= 2 && MaxArea(Candidates(ExamplePoints, |ExamplePoints|)) == 50
  {
    var points := ExamplePoints;
    CandidatesAttained(points);
    CandidatesBelow(points, 5, 1);
    var i, j :| 0 <= j < i < |points| && MaxArea(Candidates(points, |points|)) == Area(points[i], points[j]);
    ExampleAreasAtMost50(i, j);
  }

  /** The example's answer to part 1 is 50. */
  lemma ExamplePart1()
    ensures Part1Spec(ExampleInput()) == Some(50)
  {
    ExampleParses();
    ExampleLargest();
  }

  /** The example polygon's vertical and horizontal edges, in the order the loop meets them. */
  const ExampleVertical: seq<Line> := [(11, 1, 7), (9, 5, 7), (2, 3, 5), (7, 1, 3)]
  const ExampleHorizontal: seq<Line> := [(1, 7, 11), (7, 9, 11), (5, 2, 9), (3, 2, 7)]

  lemma ExampleLines()
    ensures Lines(ExamplePoints, 8, 0) == ExampleVertical
    ensures Lines(ExamplePoints, 8, 1) == ExampleHorizontal
  {
    var points := ExamplePoints;
    assert Lines(points, 2, 0) == [(11, 1, 7)] && Lines(points, 2, 1) == [(1, 7, 11)];
    assert Lines(points, 4, 0) == [(11, 1, 7), (9, 5, 7)] && Lines(points, 4, 1) == [(1, 7, 11), (7, 9, 11)];
    assert Lines(points, 6, 0) == [(11, 1, 7), (9, 5, 7), (2, 3, 5)];
    assert Lines(points, 6, 1) == [(1, 7, 11), (7, 9, 11), (5, 2, 9)];
  }

  /** The check looks at the lines, not at their order. */
  lemma OutsideReordered(lines: (seq<Line>, seq<Line>), other: (seq<Line>, seq<Line>), a: Point, b: Point)
    requires multiset(lines.0) == multiset(other.0) && multiset(lines.1) == multiset(other.1)
    ensures Outside(lines, a, b) <==> Outside(other, a, b)
  {
    forall axis, k | 0 <= axis < 2 && 0 <= k < |Along(lines, axis)|
      ensures Along(lines, axis)[k] in Along(other, axis)
    {
      assert Along(lines, axis)[k] in multiset(Along(lines, axis));
    }
    forall axis, k | 0 <= axis < 2 && 0 <= k < |Along(other, axis)|
      ensures Along(other, axis)[k] in Along(lines, axis)
    {
      assert Along(other, axis)[k] in multiset(Along(other, axis));
    }
  }

  /** Every example rectangle larger than 24 cells is cut by an edge. */
  lemma ExampleCut(i: int, j: int)
    requires 0 <= j < i < 8 && Area(ExamplePoints[i], ExamplePoints[j]) > 24
    ensures !Outside((ExampleVertical, ExampleHorizontal), ExamplePoints[i], ExamplePoints[j])
  {
    var lines := (ExampleVertical, ExampleHorizontal);
    var a, b := ExamplePoints[i], ExamplePoints[j];
    if (i, j) == (6, 3) {
      assert Crosses(Along(lines, 1)[2], a, b, 1);
    } else if (i, j) == (5, 0) {
      assert Crosses(Along(lines, 1)[3], a, b, 1);
    } else if (i, j) == (5, 1) || (i, j) == (6, 1) {
      assert Crosses(Along(lines, 0)[3], a, b, 0);
    } else {
      assert Crosses(Along(lines, 0)[1], a, b, 0);
    }
  }

  /** A best fit found on one ordering of the edges is the best fit on any other ordering. */
  lemma BestAmong(lines: (seq<Line>, seq<Line>), plain: (seq<Line>, seq<Line>), points: seq<Point>, r: int, best: int, i0: int, j0: int)
    requires multiset(lines.0) == multiset(plain.0) && multiset(lines.1) == multiset(plain.1)
    requires forall i, j :: 0 <= j < i < |points| && Outside(lines, points[i], points[j]) ==> Area(points[i], points[j]) <= r
    requires r != 0 ==> exists i, j :: 0 <= j < i < |points| && Outside(lines, points[i], points[j]) && Area(points[i], points[j]) == r
    requires 0 <= j0 < i0 < |points| && Area(points[i0], points[j0]) == best && best >= 1
    requires Outside(plain, points[i0], points[j0])
    requires forall i, j :: 0 <= j < i < |points| && Area(points[i], points[j]) > best ==> !Outside(plain, points[i], points[j])
    ensures r == best
  {
    OutsideReordered(lines, plain, points[i0], points[j0]);
    assert r >= best;
    var i, j :| 0 <= j < i < |points| && Outside(lines, points[i], points[j]) && Area(points[i], points[j]) == r;
    OutsideReordered(lines, plain, points[i], points[j]);
  }

  /** The first rectangle to fit has the largest area among those that fit, judged on the edges in the order the loop meets them. */
  lemma BestFitUnsorted(points: seq<Point>, plain: (seq<Line>, seq<Line>), best: int, i0: int, j0: int)
    requires plain == (Lines(points, |points|, 0), Lines(points, |points|, 1))
    requires 0 <= j0 < i0 < |points| && Area(points[i0], points[j0]) == best
    requires Outside(plain, points[i0], points[j0])
    requires forall i, j :: 0 <= j < i < |points| && Area(points[i], points[j]) > best ==> !Outside(plain, points[i], points[j])
    ensures FirstFit(PolygonLines(points), points, Ranked(points), 0) == best
  {
    RankedBest(points);
    AreaCounts(points[i0], points[j0]);
    BestAmong(PolygonLines(points), plain, points, FirstFit(PolygonLines(points), points, Ranked(points), 0), best, i0, j0);
  }

  /** The rectangle between (9, 5) and (2, 3) meets no edge of the example. */
  lemma ExampleFits()
    ensures Outside((ExampleVertical, ExampleHorizontal), ExamplePoints[6], ExamplePoints[4])
    ensures Area(ExamplePoints[6], ExamplePoints[4]) == 24
  {
  }

  lemma ExampleCuts()
    ensures forall i, j :: 0 <= j < i < |ExamplePoints| && Area(ExamplePoints[i], ExamplePoints[j]) > 24 ==>
      !Outside((ExampleVertical, ExampleHorizontal), ExamplePoints[i], ExamplePoints[j])
  {
    forall i, j | 0 <= j < i < |ExamplePoints| && Area(ExamplePoints[i], ExamplePoints[j]) > 24
      ensures !Outside((ExampleVertical, ExampleHorizontal), ExamplePoints[i], ExamplePoints[j])
    {
      ExampleCut(i, j);
    }
  }

  /** Among the example's rectangles that no edge cuts, the largest spans 24 cells. */
  lemma ExampleBestFit(points: seq<Point>)
    requires points == ExamplePoints
    ensures FirstFit(PolygonLines(points), points, Ranked(points), 0) == 24
  {
    ExampleLines();
    ExampleFits();
    ExampleCuts();
    BestFitUnsorted(points, (ExampleVertical, ExampleHorizontal), 24, 6, 4);
  }

  /** The example's answer to part 2 is 24: the rectangle between (9, 5) and (2, 3). */
  lemma ExamplePart2()
    ensures Part2Spec(ExampleInput()) == Some(24)
  {
    ExampleParses();
    ExampleBestFit(ExamplePoints);
  }
}
