/**
 * Day 4: a grid of paper rolls ('@'). Part 1 counts the rolls with fewer than
 * four rolls among their eight neighbours; part 2 keeps removing such rolls
 * (each removal lowers its neighbours' counts) and counts every removal.
 */
module Day04 {
  import opened Parsing
  import opened Sums

  type Cell = (int, int)

  const Roll: char := '@'
  /** A roll is accessible when fewer than this many rolls surround it. */
  const Crowd: int := 4

  /** The cells around `c` in the order `_get_next_positions` yields them. */
  function Neighbours(c: Cell): (r: seq<Cell>)
    ensures |r| == 8
    ensures forall d {:trigger d in r} :: d in r <==> d != c && -1 <= d.0 - c.0 <= 1 && -1 <= d.1 - c.1 <= 1
    ensures forall a, b :: 0 <= a < b < |r| ==> r[a] != r[b]
  {
    var (i, j) := c;
    [(i - 1, j - 1), (i - 1, j), (i - 1, j + 1), (i, j - 1), (i, j + 1), (i + 1, j - 1), (i + 1, j), (i + 1, j + 1)]
  }

  /** Being neighbours is symmetric and never relates a cell to itself. */
  lemma NeighbourSymmetric(c: Cell, d: Cell)
    ensures d in Neighbours(c) <==> c in Neighbours(d)
    ensures c !in Neighbours(c)
  {
  }

  /** How many entries of `s` lie in `S`. */
  function CountIn(s: seq<Cell>, S: set<Cell>): (k: nat)
    ensures k <= |s|
  {
    if s == [] then 0 else CountIn(s[..|s| - 1], S) + (if s[|s| - 1] in S then 1 else 0)
  }

  /** The number of cells of `S` around `c`. */
  function Around(c: Cell, S: set<Cell>): (k: nat)
    ensures k <= 8
  {
    CountIn(Neighbours(c), S)
  }

  lemma AroundMono(c: Cell, S: set<Cell>, T: set<Cell>)
    requires S <= T
    ensures Around(c, S) <= Around(c, T)
  {
    CountInMono(Neighbours(c), S, T);
  }

  lemma {:induction false} CountInMono(s: seq<Cell>, S: set<Cell>, T: set<Cell>)
    requires S <= T
    ensures CountIn(s, S) <= CountIn(s, T)
  {
    if s != [] {
      CountInMono(s[..|s| - 1], S, T);
    }
  }

  /** Taking `x` out of `S` lowers the count by one exactly when `x` occurs in `s` and in `S`. */
  lemma {:induction false} CountInRemove(s: seq<Cell>, S: set<Cell>, x: Cell)
    requires forall a, b :: 0 <= a < b < |s| ==> s[a] != s[b]
    ensures CountIn(s, S - {x}) == CountIn(s, S) - (if x in s && x in S then 1 else 0)
  {
    if s != [] {
      var p := s[..|s| - 1];
      CountInRemove(p, S, x);
      if x == s[|s| - 1] {
        assert x !in p;
      } else {
        assert x in s <==> x in p;
      }
    }
  }

  // ---------------------------------------------------------------------
  // The grid and its counts

  /** The length of the first row: the grid's width as the solver takes it. */
  function Width(grid: seq<string>): int
  {
    if grid == [] then 0 else |grid[0]|
  }

  predicate InBounds(grid: seq<string>, c: Cell)
  {
    0 <= c.0 < |grid| && 0 <= c.1 < Width(grid)
  }

  /** The rolls within the grid's bounds. */
  function Rolls(grid: seq<string>): set<Cell>
  {
    set i, j | 0 <= i < |grid| && 0 <= j < |grid[i]| && j < Width(grid) && grid[i][j] == Roll :: (i, j)
  }

  /** The cell holds a roll and lies within the bounds. */
  predicate IsRoll(grid: seq<string>, c: Cell)
  {
    0 <= c.0 < |grid| && 0 <= c.1 < |grid[c.0]| && c.1 < Width(grid) && grid[c.0][c.1] == Roll
  }

  lemma InRolls(grid: seq<string>, c: Cell)
    ensures c in Rolls(grid) <==> IsRoll(grid, c)
  {
    if IsRoll(grid, c) {
      var (i, j) := c;
      assert (i, j) in Rolls(grid);
    }
  }

  /** An in-bounds cell whose row is too short to hold it. */
  predicate ShortAt(grid: seq<string>, c: Cell)
  {
    InBounds(grid, c) && c.1 >= |grid[c.0]|
  }

  /**
   * Counting around the roll at (i, j) raises IndexError: a neighbour inside
   * the bounds lies past the end of its row, or the roll lies past the width.
   */
  predicate CellCrashes(grid: seq<string>, i: int, j: int)
    requires 0 <= i < |grid| && 0 <= j < |grid[i]|
  {
    grid[i][j] == Roll && (j >= Width(grid) || AnyShort(grid, (i, j)))
  }

  /** `_get_surrounding_counts` fails: no rows at all, or some roll's count raises IndexError. */
  predicate Crashes(grid: seq<string>)
  {
    grid == [] || exists i, j :: 0 <= i < |grid| && 0 <= j < |grid[i]| && CellCrashes(grid, i, j)
  }

  /** A non-empty grid whose rows all have one length never fails. */
  lemma RectangularNeverCrashes(grid: seq<string>)
    requires grid != [] && forall i :: 0 <= i < |grid| ==> |grid[i]| == Width(grid)
    ensures !Crashes(grid)
  {
  }

  /** The entry of the count grid: the rolls around a roll, -1 for any other cell. */
  function CountAt(grid: seq<string>, c: Cell): (k: int)
    ensures -1 <= k <= 8
    ensures k == -1 <==> c !in Rolls(grid)
  {
    if c in Rolls(grid) then Around(c, Rolls(grid)) else -1
  }

  /** Some neighbour of `c` inside the bounds lies past the end of its row. */
  predicate AnyShort(grid: seq<string>, c: Cell)
  {
    exists q {:trigger q in Neighbours(c)} :: q in Neighbours(c) && ShortAt(grid, q)
  }

  lemma CountInSnoc(s: seq<Cell>, S: set<Cell>, k: int)
    requires 0 <= k < |s|
    ensures CountIn(s[..k + 1], S) == CountIn(s[..k], S) + (if s[k] in S then 1 else 0)
  {
    assert s[..k + 1][..k] == s[..k];
  }

  /** Row-major order: (i', j') comes before (i, j). */
  predicate Before(c: Cell, i: int, j: int)
  {
    c.0 < i || (c.0 == i && c.1 < j)
  }

  /** The count grid holds the counts of the cells before (i, j) and -1 everywhere else. */
  ghost predicate FilledUpTo(counts: array2<int>, grid: seq<string>, i: int, j: int)
    reads counts
  {
    forall i', j' {:trigger counts[i', j']} :: 0 <= i' < counts.Length0 && 0 <= j' < counts.Length1 ==>
      counts[i', j'] == if Before((i', j'), i, j) then CountAt(grid, (i', j')) else -1
  }

  lemma FillStep(counts: array2<int>, grid: seq<string>, i: int, j: int)
    requires 0 <= i < counts.Length0 && 0 <= j < counts.Length1
    requires counts[i, j] == CountAt(grid, (i, j))
    requires forall i', j' {:trigger counts[i', j']} :: 0 <= i' < counts.Length0 && 0 <= j' < counts.Length1 && (i', j') != (i, j) ==>
      counts[i', j'] == if Before((i', j'), i, j) then CountAt(grid, (i', j')) else -1
    ensures FilledUpTo(counts, grid, i, j + 1)
  {
  }

  /** No roll before (i, j) makes the count fail. */
  ghost predicate SafeUpTo(grid: seq<string>, i: int, j: int)
  {
    forall i', j' :: 0 <= i' < |grid| && 0 <= j' < |grid[i']| && Before((i', j'), i, j) ==> !CellCrashes(grid, i', j')
  }

  lemma SafeStep(grid: seq<string>, i: int, j: int)
    requires 0 <= i < |grid| && 0 <= j < |grid[i]|
    requires SafeUpTo(grid, i, j) && !CellCrashes(grid, i, j)
    ensures SafeUpTo(grid, i, j + 1)
  {
  }

  /** The inner loop of `_get_surrounding_counts`: the rolls around (i, j), or None on IndexError. */
  method CountAround(grid: seq<string>, i: int, j: int) returns (r: Option<int>)
    requires grid != []
    ensures r.None? <==> AnyShort(grid, (i, j))
    ensures r.Some? ==> r.value == Around((i, j), Rolls(grid))
  {
    var m, n := |grid|, |grid[0]|;
    var nbrs := Neighbours((i, j));
    var count := 0;
    for k := 0 to 8
      invariant count == CountIn(nbrs[..k], Rolls(grid))
      invariant forall k' :: 0 <= k' < k ==> !ShortAt(grid, nbrs[k'])
    {
      var q := nbrs[k];
      CountInSnoc(nbrs, Rolls(grid), k);
      InRolls(grid, q);
      if !(0 <= q.0 < m) || !(0 <= q.1 < n) {
        continue;
      }
      if q.1 >= |grid[q.0]| {
        assert q in nbrs && ShortAt(grid, q);
        return None;
      }
      if grid[q.0][q.1] == Roll {
        count := count + 1;
      }
    }
    assert nbrs[..8] == nbrs;
    return Some(count);
  }

  /** One cell of `_get_surrounding_counts`: false when the cell makes the count fail. */
  method FillCell(counts: array2<int>, grid: seq<string>, i: int, j: int) returns (ok: bool)
    requires grid != [] && 0 <= i < |grid| == counts.Length0 && counts.Length1 == Width(grid)
    requires 0 <= j < |grid[i]|
    requires SafeUpTo(grid, i, j) && FilledUpTo(counts, grid, i, j)
    modifies counts
    ensures ok <==> !CellCrashes(grid, i, j)
    ensures ok ==> SafeUpTo(grid, i, j + 1) && FilledUpTo(counts, grid, i, j + 1)
  {
    InRolls(grid, (i, j));
    if grid[i][j] != Roll {
      SafeStep(grid, i, j);
      return true;
    }
    var c := CountAround(grid, i, j);
    if c.None? || j >= |grid[0]| {
      return false;
    }
    SafeStep(grid, i, j);
    counts[i, j] := c.value;
    FillStep(counts, grid, i, j);
    return true;
  }

  /** Past the end of a row there are no rolls, so the cells keep their -1. */
  lemma RowEnd(counts: array2<int>, grid: seq<string>, i: int)
    requires 0 <= i < |grid| == counts.Length0 && counts.Length1 == Width(grid)
    requires SafeUpTo(grid, i, |grid[i]|) && FilledUpTo(counts, grid, i, |grid[i]|)
    ensures SafeUpTo(grid, i + 1, 0) && FilledUpTo(counts, grid, i + 1, 0)
  {
    forall j' | |grid[i]| <= j' < Width(grid)
      ensures CountAt(grid, (i, j')) == -1
    {
      InRolls(grid, (i, j'));
    }
  }

  /** One row of `_get_surrounding_counts`: false when some roll in it makes the count fail. */
  method FillRow(counts: array2<int>, grid: seq<string>, i: int) returns (ok: bool)
    requires grid != [] && 0 <= i < |grid| == counts.Length0 && counts.Length1 == Width(grid)
    requires SafeUpTo(grid, i, 0) && FilledUpTo(counts, grid, i, 0)
    modifies counts
    ensures ok <==> forall j :: 0 <= j < |grid[i]| ==> !CellCrashes(grid, i, j)
    ensures ok ==> SafeUpTo(grid, i + 1, 0) && FilledUpTo(counts, grid, i + 1, 0)
  {
    for j := 0 to |grid[i]|
      invariant SafeUpTo(grid, i, j)
      invariant FilledUpTo(counts, grid, i, j)
    {
      ok := FillCell(counts, grid, i, j);
      if !ok {
        return;
      }
    }
    RowEnd(counts, grid, i);
    return true;
  }

  /** `_get_surrounding_counts` over the stripped lines. */
  method SurroundingCounts(grid: seq<string>) returns (r: Option<array2<int>>)
    ensures r.None? <==> Crashes(grid)
    ensures r.Some? ==> fresh(r.value) && r.value.Length0 == |grid| && r.value.Length1 == Width(grid)
    ensures r.Some? ==> forall i, j {:trigger r.value[i, j]} :: 0 <= i < |grid| && 0 <= j < Width(grid) ==> r.value[i, j] == CountAt(grid, (i, j))
  {
    if |grid| == 0 {
      return None;
    }
    var m, n := |grid|, |grid[0]|;
    var counts := new int[m, n]((_, _) => -1);
    for i := 0 to m
      invariant SafeUpTo(grid, i, 0)
      invariant FilledUpTo(counts, grid, i, 0)
    {
      var ok := FillRow(counts, grid, i);
      if !ok {
        return None;
      }
    }
    return Some(counts);
  }

  /** The grid the solver reads: every line stripped of surrounding whitespace. */
  function Grid(lines: seq<string>): (grid: seq<string>)
    ensures |grid| == |lines|
    ensures forall i :: 0 <= i < |lines| ==> grid[i] == Strip(lines[i])
  {
    seq(|lines|, i requires 0 <= i < |lines| => Strip(lines[i]))
  }

  // ---------------------------------------------------------------------
  // Accessible rolls and the stable core

  /** The rolls of `R` with fewer than `Crowd` rolls of `R` around them. */
  function Accessible(R: set<Cell>): (A: set<Cell>)
    ensures A <= R
  {
    set c | c in R && Around(c, R) < Crowd
  }

  /** Every roll of `S` has at least `Crowd` rolls of `S` around it: none of them can be removed. */
  ghost predicate Stable(S: set<Cell>)
  {
    forall c {:trigger Around(c, S)} :: c in S ==> Around(c, S) >= Crowd
  }

  /** The rolls of `R` that belong to some stable subset of `R`. */
  ghost function Core(R: set<Cell>): set<Cell>
  {
    set c | c in R && exists S :: S <= R && Stable(S) && c in S
  }

  /** The core is the largest stable subset. */
  lemma CoreStable(R: set<Cell>)
    ensures Core(R) <= R && Stable(Core(R))
  {
    forall c | c in Core(R)
      ensures Around(c, Core(R)) >= Crowd
    {
      var S :| S <= R && Stable(S) && c in S;
      assert S <= Core(R);
      AroundMono(c, S, Core(R));
    }
  }

  lemma CoreGreatest(R: set<Cell>, S: set<Cell>)
    requires S <= R && Stable(S)
    ensures S <= Core(R)
  {
  }

  /** A roll with fewer than `Crowd` neighbours among rolls still holding the core is outside the core. */
  lemma NotInCore(R: set<Cell>, alive: set<Cell>, q: Cell)
    requires Core(R) <= alive && Around(q, alive) < Crowd
    ensures q !in Core(R)
  {
    CoreStable(R);
    AroundMono(q, Core(R), alive);
  }

  /** Every roll part 1 counts is also removed in part 2. */
  lemma AccessibleOutsideCore(R: set<Cell>)
    ensures Accessible(R) <= R - Core(R)
    ensures |Accessible(R)| <= |R| - |Core(R)|
  {
    forall q | q in Accessible(R)
      ensures q !in Core(R)
    {
      NotInCore(R, R, q);
    }
    CoreStable(R);
    assert R == Core(R) + (R - Core(R));
    SubsetSize(Accessible(R), R - Core(R));
  }

  // ---------------------------------------------------------------------
  // Part 1

  /** Every roll of `R` lies inside the count grid. */
  ghost predicate Within(counts: array2<int>, R: set<Cell>)
  {
    forall c {:trigger c in R} :: c in R ==> 0 <= c.0 < counts.Length0 && 0 <= c.1 < counts.Length1
  }

  /** The count grid `_get_surrounding_counts` returns for the rolls `R`. */
  ghost predicate CountsOf(counts: array2<int>, R: set<Cell>)
    reads counts
  {
    Within(counts, R) &&
    forall i, j {:trigger counts[i, j]} :: 0 <= i < counts.Length0 && 0 <= j < counts.Length1 ==>
      counts[i, j] == if (i, j) in R then Around((i, j), R) else -1
  }

  lemma RollsCounted(grid: seq<string>, counts: array2<int>)
    requires counts.Length0 == |grid| && counts.Length1 == Width(grid)
    requires forall i, j {:trigger counts[i, j]} :: 0 <= i < |grid| && 0 <= j < Width(grid) ==> counts[i, j] == CountAt(grid, (i, j))
    ensures CountsOf(counts, Rolls(grid))
  {
    forall c | c in Rolls(grid)
      ensures 0 <= c.0 < counts.Length0 && 0 <= c.1 < counts.Length1
    {
      InRolls(grid, c);
    }
  }

  /** The cells of `A` before (i, j) in row-major order. */
  ghost function Prefix(A: set<Cell>, i: int, j: int): set<Cell>
  {
    set c | c in A && Before(c, i, j)
  }

  lemma PrefixStep(A: set<Cell>, i: int, j: int)
    ensures |Prefix(A, i, j + 1)| == |Prefix(A, i, j)| + (if (i, j) in A then 1 else 0)
  {
    var P, Q := Prefix(A, i, j), Prefix(A, i, j + 1);
    forall c
      ensures c in Q <==> c in P || (c == (i, j) && c in A)
    {
    }
    if (i, j) in A {
      assert Q == P + {(i, j)};
    } else {
      assert Q == P;
    }
  }

  /** A row holds no cell of `A` past column `n`. */
  lemma PrefixRowEnd(A: set<Cell>, i: int, n: int)
    requires forall c {:trigger c in A} :: c in A ==> 0 <= c.1 < n
    ensures Prefix(A, i, n) == Prefix(A, i + 1, 0)
  {
  }

  lemma PrefixAll(A: set<Cell>, m: int)
    requires forall c {:trigger c in A} :: c in A ==> c.0 < m
    ensures Prefix(A, m, 0) == A
  {
  }

  lemma AccessibleCell(counts: array2<int>, R: set<Cell>, i: int, j: int)
    requires CountsOf(counts, R)
    requires 0 <= i < counts.Length0 && 0 <= j < counts.Length1
    ensures (i, j) in Accessible(R) <==> counts[i, j] != -1 && counts[i, j] < Crowd
  {
  }

  /** The accessible rolls in row `i`, added to the count of the rows above. */
  method CountRow(counts: array2<int>, ghost R: set<Cell>, i: int, before: int) returns (total: int)
    requires CountsOf(counts, R) && 0 <= i < counts.Length0
    requires before == |Prefix(Accessible(R), i, 0)|
    ensures total == |Prefix(Accessible(R), i + 1, 0)|
  {
    ghost var A := Accessible(R);
    total := before;
    for j := 0 to counts.Length1
      invariant total == |Prefix(A, i, j)|
    {
      AccessibleCell(counts, R, i, j);
      PrefixStep(A, i, j);
      if counts[i, j] != -1 && counts[i, j] < Crowd {
        total := total + 1;
      }
    }
    PrefixRowEnd(A, i, counts.Length1);
  }

  /** The sum in `part_1`: the entries of the count grid that are neither -1 nor crowded. */
  method CountAccessible(counts: array2<int>, ghost R: set<Cell>) returns (total: int)
    requires CountsOf(counts, R)
    ensures total == |Accessible(R)|
  {
    total := 0;
    for i := 0 to counts.Length0
      invariant total == |Prefix(Accessible(R), i, 0)|
    {
      total := CountRow(counts, R, i, total);
    }
    PrefixAll(Accessible(R), counts.Length0);
  }

  /** `part_1`: the number of accessible rolls, None when counting fails. */
  method Part1(lines: seq<string>) returns (r: Option<int>)
    ensures r == if Crashes(Grid(lines)) then None else Some(|Accessible(Rolls(Grid(lines)))|)
  {
    var grid := Grid(lines);
    var counts := SurroundingCounts(grid);
    if counts.None? {
      return None;
    }
    RollsCounted(grid, counts.value);
    var total := CountAccessible(counts.value, Rolls(grid));
    return Some(total);
  }

  // ---------------------------------------------------------------------
  // Part 2: peeling accessible rolls

  /**
   * What the count grid holds for `c` while peeling: a live roll (neither
   * removed nor waiting on the stack) holds its rolls still in `alive`, plus
   * one while `c` is among the cells of `extra` not yet relaxed; any other
   * cell holds -1.
   */
  ghost function Expected(c: Cell, live: set<Cell>, alive: set<Cell>, extra: seq<Cell>): int
  {
    if c in live then Around(c, alive) + (if c in extra then 1 else 0) else -1
  }

  ghost predicate Tracks(counts: array2<int>, live: set<Cell>, alive: set<Cell>, extra: seq<Cell>)
    reads counts
  {
    forall i, j {:trigger counts[i, j]} :: 0 <= i < counts.Length0 && 0 <= j < counts.Length1 ==>
      counts[i, j] == Expected((i, j), live, alive, extra)
  }

  /** Every live roll before (i, j) is crowded: its tracked count is at least `Crowd`. */
  ghost predicate CrowdedBefore(live: set<Cell>, alive: set<Cell>, extra: seq<Cell>, i: int, j: int)
  {
    forall c {:trigger Expected(c, live, alive, extra)} :: c in live && Before(c, i, j) ==> Expected(c, live, alive, extra) >= Crowd
  }

  /** A stack of distinct cells holding exactly `pending`. */
  ghost predicate StackOf(stack: seq<Cell>, pending: set<Cell>)
  {
    (forall a, b :: 0 <= a < b < |stack| ==> stack[a] != stack[b]) &&
    (forall c {:trigger c in stack} :: c in stack <==> c in pending)
  }

  /**
   * The sets `part_2` works with: `alive` is what remains of the rolls `R`,
   * `pending` what waits on the stack, and no roll of the core has left or
   * waits to leave.
   */
  ghost predicate Peeling(R: set<Cell>, alive: set<Cell>, pending: set<Cell>, stack: seq<Cell>)
  {
    pending <= alive <= R && Core(R) <= alive - pending && StackOf(stack, pending)
  }

  /** After writing one cell, the grid tracks the state when that cell and all others do. */
  lemma Retrack(counts: array2<int>, q: Cell, live: set<Cell>, alive: set<Cell>, extra: seq<Cell>)
    requires 0 <= q.0 < counts.Length0 && 0 <= q.1 < counts.Length1
    requires counts[q.0, q.1] == Expected(q, live, alive, extra)
    requires forall i, j {:trigger counts[i, j]} :: 0 <= i < counts.Length0 && 0 <= j < counts.Length1 && (i, j) != q ==>
      counts[i, j] == Expected((i, j), live, alive, extra)
    ensures Tracks(counts, live, alive, extra)
  {
  }

  lemma SeedStart(counts: array2<int>, R: set<Cell>)
    requires CountsOf(counts, R)
    ensures Peeling(R, R, {}, []) && Tracks(counts, R, R, []) && CrowdedBefore(R, R, [], 0, 0)
  {
    CoreStable(R);
  }

  /** Visiting a cell that stays: its count is -1 or crowded. */
  lemma SeedSkip(counts: array2<int>, live: set<Cell>, alive: set<Cell>, i: int, j: int)
    requires Tracks(counts, live, alive, []) && CrowdedBefore(live, alive, [], i, j)
    requires 0 <= i < counts.Length0 && 0 <= j < counts.Length1
    requires counts[i, j] == -1 || counts[i, j] >= Crowd
    ensures CrowdedBefore(live, alive, [], i, j + 1)
  {
  }

  /** Once a row is visited, so is every cell before the start of the next. */
  lemma RowDone(counts: array2<int>, R: set<Cell>, live: set<Cell>, alive: set<Cell>, i: int)
    requires Within(counts, R) && live <= R && CrowdedBefore(live, alive, [], i, counts.Length1)
    ensures CrowdedBefore(live, alive, [], i + 1, 0)
  {
    forall c | c in live && Before(c, i + 1, 0)
      ensures Expected(c, live, alive, []) >= Crowd
    {
      assert c in R;
      assert Before(c, i, counts.Length1);
    }
  }

  /** Taking the cell (i, j) out of the live rolls keeps the visited ones crowded. */
  lemma SeedTake(live: set<Cell>, alive: set<Cell>, i: int, j: int)
    requires CrowdedBefore(live, alive, [], i, j)
    ensures CrowdedBefore(live - {(i, j)}, alive, [], i, j + 1)
  {
    forall c | c in live - {(i, j)} && Before(c, i, j + 1)
      ensures Expected(c, live - {(i, j)}, alive, []) >= Crowd
    {
      assert Before(c, i, j) && Expected(c, live, alive, []) >= Crowd;
    }
  }

  /** Pushing a cell onto a stack of distinct cells that lacks it. */
  lemma PushStack(stack: seq<Cell>, pending: set<Cell>, q: Cell)
    requires StackOf(stack, pending) && q !in pending
    ensures StackOf(stack + [q], pending + {q})
  {
    forall a | 0 <= a < |stack|
      ensures stack[a] != q
    {
      assert stack[a] in stack;
    }
  }

  /** Lines 81-87 for one cell: an accessible roll leaves the grid (-1) and waits on the stack. */
  method Seed(counts: array2<int>, ghost R: set<Cell>, stack: seq<Cell>, ghost pending: set<Cell>, i: int, j: int)
    returns (stack': seq<Cell>, ghost pending': set<Cell>)
    requires Within(counts, R) && Peeling(R, R, pending, stack)
    requires Tracks(counts, R - pending, R, []) && CrowdedBefore(R - pending, R, [], i, j)
    requires 0 <= i < counts.Length0 && 0 <= j < counts.Length1
    modifies counts
    ensures Peeling(R, R, pending', stack')
    ensures Tracks(counts, R - pending', R, []) && CrowdedBefore(R - pending', R, [], i, j + 1)
  {
    var x := counts[i, j];
    if x == -1 || x >= Crowd {
      SeedSkip(counts, R - pending, R, i, j);
      return stack, pending;
    }
    var q := (i, j);
    NotInCore(R, R, q);
    PushStack(stack, pending, q);
    SeedTake(R - pending, R, i, j);
    assert R - (pending + {q}) == (R - pending) - {q};
    counts[i, j] := -1;
    stack' := stack + [q];
    pending' := pending + {q};
    Retrack(counts, q, R - pending', R, []);
  }

  lemma ExtraSplit(p: Cell, k: int)
    requires 0 <= k < 8
    ensures forall c {:trigger c in Neighbours(p)[k..]} :: c in Neighbours(p)[k..] <==> c == Neighbours(p)[k] || c in Neighbours(p)[k + 1..]
    ensures Neighbours(p)[k] !in Neighbours(p)[k + 1..]
  {
    var N := Neighbours(p);
    assert N[k..] == [N[k]] + N[k + 1..];
    var tail := N[k + 1..];
    forall b | 0 <= b < |tail|
      ensures tail[b] != N[k]
    {
      assert tail[b] == N[k + 1 + b];
    }
  }

  /** Removing `p` from `alive` while `p`'s neighbours still count it once leaves every expectation as it was. */
  lemma PopExpected(c: Cell, live: set<Cell>, alive: set<Cell>, p: Cell)
    requires p in alive
    ensures Expected(c, live, alive, []) == Expected(c, live, alive - {p}, Neighbours(p))
  {
    if c in live {
      CountInRemove(Neighbours(c), alive, p);
      NeighbourSymmetric(c, p);
    }
  }

  lemma PopStack(stack: seq<Cell>, pending: set<Cell>)
    requires StackOf(stack, pending) && stack != []
    ensures stack[|stack| - 1] in pending
    ensures StackOf(stack[..|stack| - 1], pending - {stack[|stack| - 1]})
  {
    var p, rest := stack[|stack| - 1], stack[..|stack| - 1];
    assert p in stack;
    forall c | c in rest
      ensures c in pending - {p}
    {
      var a :| 0 <= a < |rest| && rest[a] == c;
      assert stack[a] == c && stack[a] in stack;
    }
    forall c | c in pending - {p}
      ensures c in rest
    {
      assert c in stack;
      var a :| 0 <= a < |stack| && stack[a] == c;
      assert rest[a] == c;
    }
  }

  /** Line 92: popping `p` from the stack; it leaves `alive` before its neighbours are relaxed. */
  lemma PopStart(counts: array2<int>, R: set<Cell>, alive: set<Cell>, pending: set<Cell>, stack: seq<Cell>)
    requires Peeling(R, alive, pending, stack) && stack != []
    requires Tracks(counts, alive - pending, alive, [])
    requires CrowdedBefore(alive - pending, alive, [], counts.Length0, 0)
    ensures var p := stack[|stack| - 1];
      p in pending && p in alive &&
      Peeling(R, alive - {p}, pending - {p}, stack[..|stack| - 1]) &&
      Tracks(counts, alive - pending, alive - {p}, Neighbours(p)) &&
      CrowdedBefore(alive - pending, alive - {p}, Neighbours(p), counts.Length0, 0)
  {
    var p := stack[|stack| - 1];
    PopStack(stack, pending);
    var live := alive - pending;
    assert (alive - {p}) - (pending - {p}) == live;
    forall i, j | 0 <= i < counts.Length0 && 0 <= j < counts.Length1
      ensures counts[i, j] == Expected((i, j), live, alive - {p}, Neighbours(p))
    {
      PopExpected((i, j), live, alive, p);
    }
    forall c | c in live && Before(c, counts.Length0, 0)
      ensures Expected(c, live, alive - {p}, Neighbours(p)) >= Crowd
    {
      PopExpected(c, live, alive, p);
    }
  }

  /** A cell that is not live (outside the grid or holding less than `Crowd`) is passed over, line 95. */
  lemma RelaxSkip(counts: array2<int>, live: set<Cell>, alive: set<Cell>, p: Cell, k: int)
    requires 0 <= k < 8 && Neighbours(p)[k] !in live
    requires Tracks(counts, live, alive, Neighbours(p)[k..])
    requires CrowdedBefore(live, alive, Neighbours(p)[k..], counts.Length0, 0)
    ensures Tracks(counts, live, alive, Neighbours(p)[k + 1..])
    ensures CrowdedBefore(live, alive, Neighbours(p)[k + 1..], counts.Length0, 0)
  {
    ExtraSplit(p, k);
    var e, e' := Neighbours(p)[k..], Neighbours(p)[k + 1..];
    forall i, j | 0 <= i < counts.Length0 && 0 <= j < counts.Length1
      ensures counts[i, j] == Expected((i, j), live, alive, e')
    {
      assert Expected((i, j), live, alive, e) == Expected((i, j), live, alive, e');
    }
    forall c | c in live && Before(c, counts.Length0, 0)
      ensures Expected(c, live, alive, e') >= Crowd
    {
      assert Expected(c, live, alive, e) == Expected(c, live, alive, e');
    }
  }

  /** After the decrement on lines 98-101, every other live roll keeps what it held and stays crowded. */
  lemma RelaxCrowded(live: set<Cell>, live': set<Cell>, alive: set<Cell>, p: Cell, k: int, m: int)
    requires 0 <= k < 8
    requires CrowdedBefore(live, alive, Neighbours(p)[k..], m, 0)
    requires live' <= live
    requires Neighbours(p)[k] in live' ==> Around(Neighbours(p)[k], alive) >= Crowd
    ensures CrowdedBefore(live', alive, Neighbours(p)[k + 1..], m, 0)
  {
    ExtraSplit(p, k);
    var q, e, e' := Neighbours(p)[k], Neighbours(p)[k..], Neighbours(p)[k + 1..];
    forall c | c in live' && Before(c, m, 0)
      ensures Expected(c, live', alive, e') >= Crowd
    {
      if c != q {
        assert Expected(c, live, alive, e) == Expected(c, live', alive, e');
      }
    }
  }

  /** A live roll lies in the grid and holds at least `Crowd`. */
  lemma LiveCrowded(counts: array2<int>, R: set<Cell>, live: set<Cell>, alive: set<Cell>, extra: seq<Cell>, q: Cell)
    requires Within(counts, R) && live <= R
    requires Tracks(counts, live, alive, extra) && CrowdedBefore(live, alive, extra, counts.Length0, 0)
    ensures q in live ==> 0 <= q.0 < counts.Length0 && 0 <= q.1 < counts.Length1 && counts[q.0, q.1] >= Crowd
  {
    if q in live {
      assert q in R && Before(q, counts.Length0, 0);
      assert counts[q.0, q.1] == Expected(q, live, alive, extra);
    }
  }

  /** Lines 94-101 for the k-th neighbour of the popped roll `p`. */
  method Relax(counts: array2<int>, ghost R: set<Cell>, ghost alive: set<Cell>, stack: seq<Cell>, ghost pending: set<Cell>,
               p: Cell, k: int)
    returns (stack': seq<Cell>, ghost pending': set<Cell>)
    requires 0 <= k < 8
    requires Within(counts, R) && Peeling(R, alive, pending, stack)
    requires Tracks(counts, alive - pending, alive, Neighbours(p)[k..])
    requires CrowdedBefore(alive - pending, alive, Neighbours(p)[k..], counts.Length0, 0)
    modifies counts
    ensures Peeling(R, alive, pending', stack')
    ensures Tracks(counts, alive - pending', alive, Neighbours(p)[k + 1..])
    ensures CrowdedBefore(alive - pending', alive, Neighbours(p)[k + 1..], counts.Length0, 0)
  {
    var q := Neighbours(p)[k];
    var (i, j) := q;
    ghost var live := alive - pending;
    ExtraSplit(p, k);
    LiveCrowded(counts, R, live, alive, Neighbours(p)[k..], q);
    if !(0 <= i < counts.Length0) || !(0 <= j < counts.Length1) || counts[i, j] < Crowd {
      RelaxSkip(counts, live, alive, p, k);
      return stack, pending;
    }
    assert q in live;
    counts[i, j] := counts[i, j] - 1;
    if counts[i, j] < Crowd {
      NotInCore(R, alive, q);
      PushStack(stack, pending, q);
      counts[i, j] := -1;
      stack', pending' := stack + [q], pending + {q};
    } else {
      stack', pending' := stack, pending;
    }
    Retrack(counts, q, alive - pending', alive, Neighbours(p)[k + 1..]);
    RelaxCrowded(live, alive - pending', alive, p, k, counts.Length0);
  }

  /** With the stack empty, what remains is stable and holds the core: it is the core. */
  lemma PeelDone(counts: array2<int>, R: set<Cell>, alive: set<Cell>, pending: set<Cell>)
    requires Within(counts, R) && Peeling(R, alive, pending, [])
    requires CrowdedBefore(alive - pending, alive, [], counts.Length0, 0)
    ensures alive == Core(R)
  {
    if pending != {} {
      var c :| c in pending;
      ghost var stacked := c in [];
      assert false;
    }
    assert alive - pending == alive;
    forall c | c in alive
      ensures Around(c, alive) >= Crowd
    {
      assert c in R && Before(c, counts.Length0, 0);
      assert Expected(c, alive, alive, []) >= Crowd;
    }
    CoreGreatest(R, alive);
  }

  /** `part_2` once the count grid is built: the number of rolls removed until none is accessible. */
  method Peel(counts: array2<int>, ghost R: set<Cell>) returns (result: int)
    requires CountsOf(counts, R)
    modifies counts
    ensures result == |R| - |Core(R)|
  {
    var m, n := counts.Length0, counts.Length1;
    var stack: seq<Cell> := [];
    ghost var pending: set<Cell> := {};
    SeedStart(counts, R);
    for i := 0 to m
      invariant Within(counts, R) && Peeling(R, R, pending, stack)
      invariant Tracks(counts, R - pending, R, []) && CrowdedBefore(R - pending, R, [], i, 0)
    {
      for j := 0 to n
        invariant Within(counts, R) && Peeling(R, R, pending, stack)
        invariant Tracks(counts, R - pending, R, []) && CrowdedBefore(R - pending, R, [], i, j)
      {
        stack, pending := Seed(counts, R, stack, pending, i, j);
      }
      RowDone(counts, R, R - pending, R, i);
    }
    ghost var alive := R;
    result := 0;
    while stack != []
      invariant Within(counts, R) && Peeling(R, alive, pending, stack)
      invariant Tracks(counts, alive - pending, alive, []) && CrowdedBefore(alive - pending, alive, [], m, 0)
      invariant result == |R| - |alive|
      decreases |alive|
    {
      result := result + 1;
      var p := stack[|stack| - 1];
      PopStart(counts, R, alive, pending, stack);
      ghost var live := alive - pending;
      stack := stack[..|stack| - 1];
      alive, pending := alive - {p}, pending - {p};
      assert alive - pending == live;
      assert Neighbours(p)[0..] == Neighbours(p);
      for k := 0 to 8
        invariant Within(counts, R) && Peeling(R, alive, pending, stack)
        invariant Tracks(counts, alive - pending, alive, Neighbours(p)[k..])
        invariant CrowdedBefore(alive - pending, alive, Neighbours(p)[k..], m, 0)
      {
        stack, pending := Relax(counts, R, alive, stack, pending, p, k);
      }
      assert Neighbours(p)[8..] == [];
    }
    PeelDone(counts, R, alive, pending);
  }

  /** `part_2`: how many rolls the peeling removes, None when counting fails. */
  method Part2(lines: seq<string>) returns (r: Option<int>)
    ensures r == if Crashes(Grid(lines)) then None else Some(|Rolls(Grid(lines))| - |Core(Rolls(Grid(lines)))|)
  {
    var grid := Grid(lines);
    var counts := SurroundingCounts(grid);
    if counts.None? {
      return None;
    }
    RollsCounted(grid, counts.value);
    var removed := Peel(counts.value, Rolls(grid));
    return Some(removed);
  }

  /** Peeling the core again removes nothing. */
  lemma CoreIdempotent(R: set<Cell>)
    ensures Core(Core(R)) == Core(R)
  {
    CoreStable(R);
    CoreGreatest(Core(R), Core(R));
    CoreStable(Core(R));
  }
}
