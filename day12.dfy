/**
 * Day 12: each region line "AxB: c1 c2 …" names a region with A rows and B
 * columns and the number of presents of each shape to place in it. Part 1
 * does not place anything: it counts the region lines that pass a single
 * integer capacity test, `col // 3 * row // 3 >= sum(counts)`, and ignores
 * every line without an 'x' (the shape drawings). Part 2 has no puzzle and
 * answers the empty string.
 *
 * Python's `//` rounds toward minus infinity; with the positive divisor 3
 * that is exactly Dafny's Euclidean `/`, so `/ 3` below is the source's
 * `// 3` for negative operands too.
 */
module Day12 {
  import opened Parsing
  import opened Sums

  /** One region line: its rows, its columns and the wanted count of each shape. */
  datatype Region = Region(row: int, col: int, counts: seq<int>)

  // ---------------------------------------------------------------------
  // Reading a region line

  /**
   * `line.split(": ")` unpacked into two names, then `dimensions.split("x")`
   * unpacked into `row, col` through `int`, and the counts read with
   * `int` from `counts.split()`. A wrong number of parts or a failing `int`
   * raises in the source; here it gives None.
   */
  function ParseRegion(line: string): (r: Option<Region>)
    ensures r.Some? ==> |Split(line, ": ")| == 2 && |Split(Split(line, ": ")[0], "x")| == 2
    ensures r.Some? ==> |r.value.counts| == |Words(Split(line, ": ")[1])|
  {
    var parts := Split(line, ": ");
    if |parts| != 2 then None
    else
      var dims := Split(parts[0], "x");
      if |dims| != 2 then None
      else
        var row := ParseInt(dims[0]);
        var col := ParseInt(dims[1]);
        var counts := ParseInts(Words(parts[1]));
        if row.Some? && col.Some? && counts.Some? then Some(Region(row.value, col.value, counts.value))
        else None
  }

  /** Counts separated by single spaces, the way the puzzle writes them. */
  function Joined(counts: seq<nat>): string
  {
    if counts == [] then ""
    else if |counts| == 1 then Decimal(counts[0])
    else Joined(counts[..|counts| - 1]) + " " + Decimal(counts[|counts| - 1])
  }

  /** The puzzle's spelling of a region with non-negative numbers. */
  function Format(row: nat, col: nat, counts: seq<nat>): string
  {
    Decimal(row) + "x" + Decimal(col) + ": " + Joined(counts)
  }

  /** The decimal spellings of the counts. */
  function Spellings(counts: seq<nat>): (ss: seq<string>)
    ensures |ss| == |counts|
  {
    if counts == [] then [] else Spellings(counts[..|counts| - 1]) + [Decimal(counts[|counts| - 1])]
  }

  /** The words of the joined counts are their spellings. */
  lemma {:induction false} JoinedWords(counts: seq<nat>)
    ensures Words(Joined(counts)) == Spellings(counts)
  {
    if counts != [] {
      var n := |counts|;
      var init := counts[..n - 1];
      JoinedWords(init);
      WordsWhole(Decimal(counts[n - 1]));
      if n >= 2 {
        WordsAround(Joined(init), Decimal(counts[n - 1]));
      }
    }
  }

  /** `int` reads every spelling back. */
  lemma {:induction false} SpellingsRead(counts: seq<nat>)
    ensures ParseInts(Spellings(counts)) == Some(counts)
  {
    if counts != [] {
      var n := |counts|;
      var init := counts[..n - 1];
      SpellingsRead(init);
      ParseIntDecimal(counts[n - 1]);
      assert Spellings(counts)[..n - 1] == Spellings(init);
      assert counts == init + [counts[n - 1]];
    }
  }

  /** Joined counts hold digits and spaces only. */
  lemma {:induction false} JoinedChars(counts: seq<nat>)
    ensures forall k :: 0 <= k < |Joined(counts)| ==> IsDigit(Joined(counts)[k]) || Joined(counts)[k] == ' '
  {
    if |counts| >= 2 {
      JoinedChars(counts[..|counts| - 1]);
    }
  }

  /** Reading a region line the puzzle wrote gives back its numbers: row first, then column. */
  lemma ParseFormat(row: nat, col: nat, counts: seq<nat>)
    ensures ParseRegion(Format(row, col, counts)) == Some(Region(row, col, counts))
  {
    var dims := Decimal(row) + "x" + Decimal(col);
    var line := Format(row, col, counts);
    assert line == dims + ": " + Joined(counts);
    assert forall k :: 0 <= k < |dims| ==> dims[k] != ':' by {
      assert forall k :: 0 <= k < |dims| ==> IsDigit(dims[k]) || dims[k] == 'x';
    }
    SplitFirst(dims, ": ", Joined(counts));
    JoinedChars(counts);
    SplitNone(Joined(counts), ": ");
    assert Split(line, ": ") == [dims, Joined(counts)];
    SplitDigitsThen(Decimal(row), 'x', Decimal(col));
    SplitDigitsWhole(Decimal(col), 'x');
    assert Split(dims, "x") == [Decimal(row), Decimal(col)];
    ParseIntDecimal(row);
    ParseIntDecimal(col);
    JoinedWords(counts);
    SpellingsRead(counts);
  }

  // ---------------------------------------------------------------------
  // The capacity test

  /**
   * The nested `check`: `col // 3 * row // 3 >= sum(counts)`, evaluated left
   * to right as Python does, so the row count is multiplied in before its
   * division by 3.
   */
  predicate Check(r: Region)
  {
    (r.col / 3) * r.row / 3 >= SeqSum(r.counts)
  }

  /**
   * The test the docstring describes: every present gets a 3x3 cell of its
   * own, and a region holds (col // 3) * (row // 3) whole cells.
   */
  predicate Fits(r: Region)
  {
    (r.col / 3) * (r.row / 3) >= SeqSum(r.counts)
  }

  /** Cells (i, 0) .. (i, b - 1): one row of the grid. */
  function Row(i: int, b: nat): set<(int, int)>
  {
    if b == 0 then {} else Row(i, b - 1) + {(i, b - 1)}
  }

  /** Rows 0 .. a - 1 of b cells each. */
  function Rows(a: nat, b: nat): set<(int, int)>
  {
    if a == 0 then {} else Rows(a - 1, b) + Row(a - 1, b)
  }

  lemma {:induction false} RowHas(i: int, b: nat, c: (int, int))
    ensures c in Row(i, b) <==> c.0 == i && 0 <= c.1 < b
    ensures |Row(i, b)| == b
  {
    if b > 0 {
      RowHas(i, b - 1, c);
      RowHas(i, b - 1, (i, b - 1));
    }
  }

  lemma {:induction false} RowsHave(a: nat, b: nat, c: (int, int))
    ensures c in Rows(a, b) <==> 0 <= c.0 < a && 0 <= c.1 < b
  {
    if a > 0 {
      RowsHave(a - 1, b, c);
      RowHas(a - 1, b, c);
    }
  }

  lemma {:induction false} RowFirst(i: int, b: nat)
    ensures forall c :: c in Row(i, b) ==> c.0 == i
  {
    if b > 0 {
      RowFirst(i, b - 1);
    }
  }

  lemma {:induction false} RowsBelow(a: nat, b: nat)
    ensures forall c :: c in Rows(a, b) ==> c.0 < a
  {
    if a > 0 {
      RowsBelow(a - 1, b);
      RowFirst(a - 1, b);
    }
  }

  /** The last row shares no cell with the rows above it. */
  lemma RowsApart(a: nat, b: nat)
    ensures Rows(a, b) * Row(a, b) == {}
  {
    RowsBelow(a, b);
    RowFirst(a, b);
  }

  lemma RowSize(i: int, b: nat)
    ensures |Row(i, b)| == b
  {
    RowHas(i, b, (i, 0));
  }

  /** a rows of b cells make a * b cells. */
  lemma RowsSize(a: nat, b: nat)
    ensures |Rows(a, b)| == a * b
  {
    RowsCount(a, b);
    AreaProduct(a, b);
  }

  /** b added a times. */
  function Area(a: nat, b: nat): nat
  {
    if a == 0 then 0 else Area(a - 1, b) + b
  }

  lemma {:induction false} RowsCount(a: nat, b: nat)
    ensures |Rows(a, b)| == Area(a, b)
  {
    if a > 0 {
      RowsCount(a - 1, b);
      RowsStep(a, b);
    }
  }

  /** One more row adds b cells. */
  lemma RowsStep(a: nat, b: nat)
    requires a > 0
    ensures |Rows(a, b)| == |Rows(a - 1, b)| + b
  {
    var above, last := Rows(a - 1, b), Row(a - 1, b);
    RowsApart(a - 1, b);
    RowSize(a - 1, b);
    DisjointSize(above, last);
  }

  lemma DisjointSize<X>(A: set<X>, B: set<X>)
    requires A * B == {}
    ensures |A + B| == |A| + |B|
  {
  }

  lemma {:induction false} AreaProduct(a: nat, b: nat)
    ensures Area(a, b) == a * b
  {
    if a > 0 {
      AreaProduct(a - 1, b);
      assert a * b == (a - 1) * b + b;
    }
  }

  /**
   * The whole 3x3 cells of a region with non-negative dimensions: cell
   * (i, j) covers rows 3i..3i+2 and columns 3j..3j+2.
   */
  function Cells(row: nat, col: nat): set<(int, int)>
  {
    Rows(row / 3, col / 3)
  }

  /** A cell is listed exactly when it lies wholly inside the region. */
  lemma CellsInside(row: nat, col: nat, c: (int, int))
    ensures c in Cells(row, col) <==> 0 <= c.0 && 3 * c.0 + 3 <= row && 0 <= c.1 && 3 * c.1 + 3 <= col
  {
    RowsHave(row / 3, col / 3, c);
  }

  /**
   * The corrected test counts the whole cells: on non-negative dimensions it
   * holds exactly when there are at least as many cells as presents.
   */
  lemma FitsCells(r: Region)
    requires r.row >= 0 && r.col >= 0
    ensures |Cells(r.row, r.col)| == (r.col / 3) * (r.row / 3)
    ensures Fits(r) <==> SeqSum(r.counts) <= |Cells(r.row, r.col)|
  {
    RowsSize(r.row / 3, r.col / 3);
  }

  /**
   * On non-negative dimensions the source's test accepts every region the
   * docstring's test accepts.
   */
  lemma FitsThenCheck(r: Region)
    requires r.row >= 0 && r.col >= 0
    ensures Fits(r) ==> Check(r)
  {
    var c := r.col / 3;
    var q := r.row / 3;
    assert r.row >= 3 * q;
    assert c * r.row >= c * (3 * q) by { MulLe(c, 3 * q, r.row); }
    assert c * (3 * q) == 3 * (c * q);
    assert (c * r.row) / 3 >= (3 * (c * q)) / 3 by { DivLe(3 * (c * q), c * r.row); }
  }

  lemma MulLe(c: nat, x: int, y: int)
    requires x <= y
    ensures c * x <= c * y
  {
  }

  lemma DivLe(x: int, y: int)
    requires x <= y
    ensures x / 3 <= y / 3
  {
  }

  /**
   * The source's test is not the docstring's: a region of 5 rows and 6
   * columns holds two whole 3x3 cells, yet `6 // 3 * 5 // 3` is 3, so three
   * presents pass.
   */
  lemma CheckOvercounts()
    ensures var r := Region(5, 6, [3]); Check(r) && !Fits(r) && |Cells(r.row, r.col)| == 2
  {
    var r := Region(5, 6, [3]);
    assert SeqSum([3]) == 3 by { assert [3][..0] == []; }
    FitsCells(r);
    assert (6 / 3) * 5 / 3 == 3;
  }

  /**
   * Growing the region or asking for fewer presents never turns a pass
   * into a failure, on non-negative dimensions.
   */
  lemma CheckMonotone(r: Region, s: Region)
    requires 0 <= s.row <= r.row && 0 <= s.col <= r.col
    requires SeqSum(r.counts) <= SeqSum(s.counts)
    ensures Check(s) ==> Check(r)
  {
    DivLe(s.col, r.col);
    var c := s.col / 3;
    var d := r.col / 3;
    assert c * s.row <= d * s.row by { MulLe(s.row, c, d); }
    assert d * s.row <= d * r.row by { MulLe(d, s.row, r.row); }
    DivLe(c * s.row, d * r.row);
  }

  /** Raising one count keeps the sum from going down. */
  lemma {:induction false} SumRaise(counts: seq<int>, k: int, v: int)
    requires 0 <= k < |counts| && v >= counts[k]
    ensures SeqSum(counts[k := v]) == SeqSum(counts) + (v - counts[k])
  {
    var n := |counts|;
    var t := counts[k := v];
    assert t[..n - 1] == if k == n - 1 then counts[..n - 1] else counts[..n - 1][k := v];
    if k < n - 1 {
      SumRaise(counts[..n - 1], k, v);
    }
  }

  /** Raising a count can only turn a pass into a failure. */
  lemma CheckRaise(r: Region, k: int, v: int)
    requires 0 <= k < |r.counts| && v >= r.counts[k]
    ensures Check(r.(counts := r.counts[k := v])) ==> Check(r)
  {
    SumRaise(r.counts, k, v);
  }

  // ---------------------------------------------------------------------
  // Part 1

  /** The generator's filter: `"x" in line`. */
  predicate Marked(line: string)
  {
    'x' in line
  }

  /**
   * `sum(test(line) for line in lines if "x" in line)` for a test of a
   * region; a region line that does not parse raises, here None.
   */
  function Tally(lines: seq<string>, test: Region -> bool): (r: Option<nat>)
    ensures r.Some? ==> r.value <= |lines|
  {
    if lines == [] then Some(0)
    else
      var init := Tally(lines[..|lines| - 1], test);
      var line := lines[|lines| - 1];
      if !Marked(line) then init
      else
        var region := ParseRegion(line);
        if init.None? || region.None? then None
        else Some(init.value + if test(region.value) then 1 else 0)
  }

  /** Every marked line is a region line. */
  predicate AllParse(lines: seq<string>)
  {
    forall k :: 0 <= k < |lines| && Marked(lines[k]) ==> ParseRegion(lines[k]).Some?
  }

  /** The positions of the marked lines whose region passes the test. */
  ghost function Passing(lines: seq<string>, test: Region -> bool): set<int>
  {
    set k | 0 <= k < |lines| && Passes(lines[k], test)
  }

  /** A marked line whose region passes the test. */
  predicate Passes(line: string, test: Region -> bool)
  {
    Marked(line) && ParseRegion(line).Some? && test(ParseRegion(line).value)
  }

  /** The marked lines of a sequence one line longer. */
  lemma AllParseStep(lines: seq<string>)
    requires lines != []
    ensures AllParse(lines) <==> AllParse(lines[..|lines| - 1]) && (Marked(lines[|lines| - 1]) ==> ParseRegion(lines[|lines| - 1]).Some?)
  {
    var init := lines[..|lines| - 1];
    assert forall k :: 0 <= k < |init| ==> init[k] == lines[k];
  }

  /** The passing positions of a sequence one line longer. */
  lemma PassingStep(lines: seq<string>, test: Region -> bool)
    requires lines != []
    ensures Passing(lines, test) == Passing(lines[..|lines| - 1], test) + if Passes(lines[|lines| - 1], test) then {|lines| - 1} else {}
  {
    var init := lines[..|lines| - 1];
    assert forall k :: 0 <= k < |init| ==> init[k] == lines[k];
  }

  /**
   * The tally fails exactly when some marked line is not a region line, and
   * otherwise counts the marked lines whose region passes; lines without an
   * 'x' count for nothing.
   */
  lemma {:induction false} TallyCounts(lines: seq<string>, test: Region -> bool)
    ensures Tally(lines, test).Some? <==> AllParse(lines)
    ensures Tally(lines, test).Some? ==> Tally(lines, test).value == |Passing(lines, test)|
  {
    TallyDefined(lines, test);
    if lines == [] {
      assert Passing(lines, test) == {};
    } else {
      var n := |lines|;
      TallyCounts(lines[..n - 1], test);
      PassingStep(lines, test);
      assert n - 1 !in Passing(lines[..n - 1], test);
    }
  }

  /** The tally fails exactly when some marked line is not a region line. */
  lemma {:induction false} TallyDefined(lines: seq<string>, test: Region -> bool)
    ensures Tally(lines, test).Some? <==> AllParse(lines)
  {
    if lines != [] {
      TallyDefined(lines[..|lines| - 1], test);
      AllParseStep(lines);
    }
  }

  /** part_1 as written: the source's capacity test. */
  function Part1(lines: seq<string>): (r: Option<nat>)
    ensures r.Some? <==> AllParse(lines)
    ensures r.Some? ==> r.value == |Passing(lines, Check)|
  {
    TallyCounts(lines, Check);
    Tally(lines, Check)
  }

  /** part_1 with the docstring's test: at most the source's answer, on non-negative dimensions. */
  function Part1Cells(lines: seq<string>): (r: Option<nat>)
    ensures r.Some? <==> AllParse(lines)
    ensures r.Some? ==> r.value == |Passing(lines, Fits)|
  {
    TallyCounts(lines, Fits);
    Tally(lines, Fits)
  }

  /** A region line with non-negative dimensions. */
  predicate Sized(line: string)
  {
    var r := ParseRegion(line);
    r.Some? ==> r.value.row >= 0 && r.value.col >= 0
  }

  /** Counting whole cells never passes more regions than the source's test. */
  lemma CellsAtMost(lines: seq<string>)
    requires forall k :: 0 <= k < |lines| ==> Sized(lines[k])
    ensures Part1Cells(lines).Some? ==> Part1Cells(lines).value <= Part1(lines).value
  {
    TallyCounts(lines, Check);
    TallyCounts(lines, Fits);
    var a := Passing(lines, Fits);
    var b := Passing(lines, Check);
    forall k | k in a
      ensures k in b
    {
      assert Sized(lines[k]);
      FitsThenCheck(ParseRegion(lines[k]).value);
    }
    SubsetSize(a, b);
  }

  /** part_2: there is no second puzzle, and the answer is the empty string. */
  function Part2(lines: seq<string>): (r: string)
    ensures |r| == 0
  {
    ""
  }
}
