/**
 * Day 7: a beam enters at the column of 'S' on the first line and falls
 * row by row. A beam on a '^' splitter is replaced by beams one column to
 * its left and right; any other beam (including one outside the row) keeps
 * its column. Part 1 counts the splits, beams that meet merging; part 2
 * follows every timeline, counting how many beams sit in each column.
 */
module Day07 {
  import opened Parsing

  /** The first index of `c` in `s`, None when `s` has none (Python's `index` raising). */
  function IndexOf(s: string, c: char): (r: Option<nat>)
    ensures r.Some? ==> r.value < |s| && s[r.value] == c && forall k :: 0 <= k < r.value ==> s[k] != c
    ensures r.None? ==> forall k :: 0 <= k < |s| ==> s[k] != c
  {
    if s == [] then None
    else if s[0] == c then Some(0)
    else
      var rest := IndexOf(s[1..], c);
      if rest.None? then None else Some(rest.value + 1)
  }

  /** The column where the beam starts: the 'S' of the stripped first line. */
  function Start(lines: seq<string>): Option<nat>
  {
    if lines == [] then None else IndexOf(Strip(lines[0]), 'S')
  }

  /** The stripped lines after the first, one per row the beams fall through. */
  function Rows(lines: seq<string>): (rows: seq<string>)
    requires lines != []
    ensures |rows| == |lines| - 1
  {
    seq(|lines| - 1, i requires 0 <= i < |lines| - 1 => Strip(lines[i + 1]))
  }

  // ---------------------------------------------------------------------
  // Part 1: the set of beam columns

  predicate IsSplitter(row: string, p: int)
  {
    0 <= p < |row| && row[p] == '^'
  }

  /** The beams that hit a splitter in this row. */
  function Splitting(row: string, beams: set<int>): set<int>
  {
    set p | p in beams && IsSplitter(row, p)
  }

  /** The beams that fall through this row unchanged. */
  function Passing(row: string, beams: set<int>): set<int>
  {
    set p | p in beams && !IsSplitter(row, p)
  }

  /** Column `q` below the row gets a beam: one falls straight through it, or one splits next to it. */
  predicate Lands(row: string, beams: set<int>, q: int)
  {
    (q in beams && !IsSplitter(row, q)) ||
    (q + 1 in beams && IsSplitter(row, q + 1)) ||
    (q - 1 in beams && IsSplitter(row, q - 1))
  }

  /** The columns at most one away from a beam. */
  function Near(beams: set<int>): set<int>
  {
    beams + (set p | p in beams :: p - 1) + (set p | p in beams :: p + 1)
  }

  /** The beam columns below the row. */
  function Step(row: string, beams: set<int>): (s: set<int>)
    ensures forall q :: q in s <==> Lands(row, beams, q)
  {
    set q | q in Near(beams) && Lands(row, beams, q)
  }

  /** A beam below the row comes from a beam above it at most one column away, and every beam above leaves one below. */
  lemma StepMovesOne(row: string, beams: set<int>)
    ensures forall q :: q in Step(row, beams) ==> q in beams || q + 1 in beams || q - 1 in beams
    ensures forall p :: p in beams ==> p in Step(row, beams) || (p - 1 in Step(row, beams) && p + 1 in Step(row, beams))
  {
    forall p | p in beams
      ensures p in Step(row, beams) || (p - 1 in Step(row, beams) && p + 1 in Step(row, beams))
    {
      if IsSplitter(row, p) {
        assert Lands(row, beams, p - 1) && Lands(row, beams, p + 1);
      } else {
        assert Lands(row, beams, p);
      }
    }
  }

  /** Where a beam at `p` lands below the row. */
  function Landing(row: string, p: int): set<int>
  {
    if IsSplitter(row, p) then {p - 1, p + 1} else {p}
  }

  /** Handling one more beam above the row adds its own column, or the two around it when it splits. */
  lemma StepAdd(row: string, done: set<int>, p: int)
    requires p !in done
    ensures Step(row, done + {p}) == Step(row, done) + Landing(row, p)
    ensures Splitting(row, done + {p}) == Splitting(row, done) + (if IsSplitter(row, p) then {p} else {})
  {
    if IsSplitter(row, p) {
      assert Splitting(row, done + {p}) == Splitting(row, done) + {p};
    } else {
      assert Splitting(row, done + {p}) == Splitting(row, done);
    }
  }

  /** The beams below all the rows. */
  function Beams(start: set<int>, rows: seq<string>): set<int>
  {
    if rows == [] then start else Step(rows[|rows| - 1], Beams(start, rows[..|rows| - 1]))
  }

  /** The splits over all the rows: one per distinct beam column sitting on a splitter. */
  function Splits(start: set<int>, rows: seq<string>): (n: nat)
  {
    if rows == [] then 0
    else
      var above := Beams(start, rows[..|rows| - 1]);
      Splits(start, rows[..|rows| - 1]) + |Splitting(rows[|rows| - 1], above)|
  }

  /** What `part_1` returns: None when there is no first line or it has no 'S'. */
  function SplitCount(lines: seq<string>): Option<int>
  {
    var s := Start(lines);
    if s.None? then None else Some(Splits({s.value}, Rows(lines)))
  }

  /** The inner loop of `part_1`: every beam of the row, in any order, into the next set. */
  method StepBeams(row: string, positions: set<int>) returns (next: set<int>, hits: nat)
    ensures next == Step(row, positions)
    ensures hits == |Splitting(row, positions)|
  {
    next := {};
    hits := 0;
    var todo := positions;
    while todo != {}
      invariant todo <= positions
      invariant next == Step(row, positions - todo)
      invariant hits == |Splitting(row, positions - todo)|
      decreases |todo|
    {
      Inhabited(todo);
      var p :| p in todo;
      StepAdd(row, positions - todo, p);
      assert positions - (todo - {p}) == (positions - todo) + {p};
      if !IsSplitter(row, p) {
        next := next + {p};
      } else {
        hits := hits + 1;
        next := next + {p - 1} + {p + 1};
      }
      todo := todo - {p};
    }
    assert positions - todo == positions;
  }

  /** `part_1`: follow the set of beam columns down the rows, adding up the splits. */
  method Part1(lines: seq<string>) returns (r: Option<int>)
    ensures r == SplitCount(lines)
  {
    if lines == [] {
      return None;
    }
    var s := IndexOf(Strip(lines[0]), 'S');
    if s.None? {
      return None;
    }
    var rows := Rows(lines);
    var positions: set<int> := {s.value};
    var result := 0;
    for k := 0 to |rows|
      invariant positions == Beams({s.value}, rows[..k])
      invariant result == Splits({s.value}, rows[..k])
    {
      assert rows[..k + 1][..k] == rows[..k];
      var line := Strip(lines[k + 1]);
      assert line == rows[k];
      var next, hits := StepBeams(line, positions);
      result := result + hits;
      positions := next;
    }
    assert rows[..|rows|] == rows;
    return Some(result);
  }

  // ---------------------------------------------------------------------
  // Part 2: how many timelines reach each column

  /** A non-empty set has an element. */
  lemma Inhabited(s: set<int>)
    requires s != {}
    ensures exists x :: x in s
  {
    if forall x :: x !in s {
      assert false;
    }
  }

  /** The sum of `counts` over `keys`. */
  ghost function Mass(counts: map<int, int>, keys: set<int>): int
    requires keys <= counts.Keys
    decreases keys
  {
    if keys == {} then 0 else Inhabited(keys); var k :| k in keys; counts[k] + Mass(counts, keys - {k})
  }

  /** The sum of all the counts of a Counter: `sum(positions.values())`. */
  ghost function Total(counts: map<int, int>): int
  {
    Mass(counts, counts.Keys)
  }

  /** Any key may be taken out first. */
  lemma {:induction false} MassRemove(counts: map<int, int>, keys: set<int>, k: int)
    requires keys <= counts.Keys && k in keys
    ensures Mass(counts, keys) == counts[k] + Mass(counts, keys - {k})
    decreases keys
  {
    var j :| j in keys && Mass(counts, keys) == counts[j] + Mass(counts, keys - {j});
    if j != k {
      MassRemove(counts, keys - {j}, k);
      MassRemove(counts, keys - {k}, j);
      assert keys - {j} - {k} == keys - {k} - {j};
    }
  }

  /** The sum over two disjoint key sets is the sum of the sums. */
  lemma {:induction false} MassUnion(counts: map<int, int>, a: set<int>, b: set<int>)
    requires a <= counts.Keys && b <= counts.Keys && a !! b
    ensures Mass(counts, a + b) == Mass(counts, a) + Mass(counts, b)
    decreases b
  {
    if b != {} {
      Inhabited(b);
      var k :| k in b;
      MassRemove(counts, b, k);
      MassRemove(counts, a + b, k);
      assert a + b - {k} == a + (b - {k});
      MassUnion(counts, a, b - {k});
    } else {
      assert a + b == a;
    }
  }

  /** Only the counts over `keys` matter. */
  lemma {:induction false} MassAgree(m: map<int, int>, n: map<int, int>, keys: set<int>)
    requires keys <= m.Keys && keys <= n.Keys && forall k :: k in keys ==> m[k] == n[k]
    ensures Mass(m, keys) == Mass(n, keys)
    decreases keys
  {
    if keys != {} {
      Inhabited(keys);
      var k :| k in keys;
      MassRemove(m, keys, k);
      MassRemove(n, keys, k);
      MassAgree(m, n, keys - {k});
    }
  }

  /** `counts[q] += c` on a Counter adds `c` to the total, whether or not `q` was a key. */
  lemma MassAdd(counts: map<int, int>, q: int, c: int)
    ensures Total(Bump(counts, q, c)) == Total(counts) + c
  {
    var n := Bump(counts, q, c);
    var rest := counts.Keys - {q};
    MassAgree(counts, n, rest);
    MassUnion(n, rest, {q});
    assert rest + {q} == counts.Keys + {q};
    assert Mass(n, {q}) == n[q] by {
      MassRemove(n, {q}, q);
    }
    if q in counts {
      MassUnion(counts, rest, {q});
      assert rest + {q} == counts.Keys;
      MassRemove(counts, {q}, q);
    } else {
      assert rest == counts.Keys;
    }
  }

  /** A Counter's count, 0 for a missing key. */
  function Get(counts: map<int, int>, q: int): int
  {
    if q in counts then counts[q] else 0
  }

  /** A Counter's `counter[q] += c`. */
  function Bump(counter: map<int, int>, q: int, c: int): (r: map<int, int>)
    ensures r.Keys == counter.Keys + {q}
    ensures r[q] == Get(counter, q) + c && forall k :: k in counter && k != q ==> r[k] == counter[k]
  {
    counter[q := Get(counter, q) + c]
  }

  /** What reaches column `q` below the row from the beams in `done`. */
  function Inflow(row: string, counts: map<int, int>, done: set<int>, q: int): int
    requires done <= counts.Keys
  {
    (if q in done && !IsSplitter(row, q) then counts[q] else 0) +
    (if q + 1 in done && IsSplitter(row, q + 1) then counts[q + 1] else 0) +
    (if q - 1 in done && IsSplitter(row, q - 1) then counts[q - 1] else 0)
  }

  /** The Counter below the row once the beams in `done` have been handled. */
  function Partial(row: string, counts: map<int, int>, done: set<int>): (n: map<int, int>)
    requires done <= counts.Keys
    ensures n.Keys == Step(row, done)
  {
    map q | q in Step(row, done) :: Inflow(row, counts, done, q)
  }

  /** The Counter below the row. */
  function StepCounts(row: string, counts: map<int, int>): (n: map<int, int>)
    ensures n.Keys == Step(row, counts.Keys)
  {
    Partial(row, counts, counts.Keys)
  }

  /** Handling one more beam adds its count to the inflow of the columns where it lands. */
  lemma InflowAdd(row: string, counts: map<int, int>, done: set<int>, p: int, q: int)
    requires done <= counts.Keys && p in counts && p !in done
    ensures Inflow(row, counts, done + {p}, q) ==
      Inflow(row, counts, done, q) + (if q in Landing(row, p) then counts[p] else 0)
  {
  }

  /** The partial Counter holds the inflow of every column, 0 where nothing lands. */
  lemma PartialGet(row: string, counts: map<int, int>, done: set<int>, q: int)
    requires done <= counts.Keys
    ensures Get(Partial(row, counts, done), q) == Inflow(row, counts, done, q)
  {
  }

  /** Handling one more beam adds the columns where it lands to the Counter's keys. */
  lemma PartialKeysAdd(row: string, counts: map<int, int>, done: set<int>, p: int)
    requires done <= counts.Keys && p in counts && p !in done
    ensures Partial(row, counts, done + {p}).Keys == Partial(row, counts, done).Keys + Landing(row, p)
  {
    StepAdd(row, done, p);
  }

  /** Handling one more beam adds its count to every column where it lands, and nothing elsewhere. */
  lemma PartialGetAdd(row: string, counts: map<int, int>, done: set<int>, p: int)
    requires done <= counts.Keys && p in counts && p !in done
    ensures forall q :: (Get(Partial(row, counts, done + {p}), q) ==
      Get(Partial(row, counts, done), q) + (if q in Landing(row, p) then counts[p] else 0))
  {
    forall q
      ensures Get(Partial(row, counts, done + {p}), q) ==
        Get(Partial(row, counts, done), q) + (if q in Landing(row, p) then counts[p] else 0)
    {
      InflowAdd(row, counts, done, p, q);
      PartialGet(row, counts, done, q);
      PartialGet(row, counts, done + {p}, q);
    }
  }

  /** `counter[p] += c` read column by column. */
  lemma CounterAddOne(after: map<int, int>, n: map<int, int>, p: int, c: int, land: set<int>)
    requires land == {p} && after.Keys == n.Keys + land
    requires forall q :: Get(after, q) == Get(n, q) + (if q in land then c else 0)
    ensures after == Bump(n, p, c)
  {
    var m := Bump(n, p, c);
    forall q | q in m.Keys
      ensures m[q] == after[q]
    {
      assert after[q] == Get(after, q);
    }
  }

  /** `counter[p - 1] += c; counter[p + 1] += c` read column by column. */
  lemma CounterAddTwo(after: map<int, int>, n: map<int, int>, p: int, c: int, land: set<int>)
    requires land == {p - 1, p + 1} && after.Keys == n.Keys + land
    requires forall q :: Get(after, q) == Get(n, q) + (if q in land then c else 0)
    ensures after == Bump(Bump(n, p - 1, c), p + 1, c)
  {
    var m := Bump(Bump(n, p - 1, c), p + 1, c);
    forall q | q in m.Keys
      ensures m[q] == after[q]
    {
      if q != p - 1 && q != p + 1 {
        assert m[q] == n[q];
      }
      assert after[q] == Get(after, q);
    }
  }

  /** `new_positions[position] += count` for a beam that does not split. */
  lemma PartialAddPassing(row: string, counts: map<int, int>, done: set<int>, p: int)
    requires done <= counts.Keys && p in counts && p !in done && !IsSplitter(row, p)
    ensures Partial(row, counts, done + {p}) == Bump(Partial(row, counts, done), p, counts[p])
  {
    PartialKeysAdd(row, counts, done, p);
    PartialGetAdd(row, counts, done, p);
    CounterAddOne(Partial(row, counts, done + {p}), Partial(row, counts, done), p, counts[p], Landing(row, p));
  }

  /** `new_positions[position - 1] += count; new_positions[position + 1] += count` for a beam on a splitter. */
  lemma PartialAddSplitting(row: string, counts: map<int, int>, done: set<int>, p: int)
    requires done <= counts.Keys && p in counts && p !in done && IsSplitter(row, p)
    ensures Partial(row, counts, done + {p}) == Bump(Bump(Partial(row, counts, done), p - 1, counts[p]), p + 1, counts[p])
  {
    PartialKeysAdd(row, counts, done, p);
    PartialGetAdd(row, counts, done, p);
    CounterAddTwo(Partial(row, counts, done + {p}), Partial(row, counts, done), p, counts[p], Landing(row, p));
  }

  /** Handling one more beam that falls straight through keeps the total equal to the counts handled plus those split. */
  lemma PartialMassPassing(row: string, counts: map<int, int>, done: set<int>, p: int)
    requires done <= counts.Keys && p in counts && p !in done && !IsSplitter(row, p)
    requires Total(Partial(row, counts, done)) == Mass(counts, done) + Mass(counts, Splitting(row, done))
    ensures Total(Partial(row, counts, done + {p})) == Mass(counts, done + {p}) + Mass(counts, Splitting(row, done + {p}))
  {
    var n := Partial(row, counts, done);
    PartialAddPassing(row, counts, done, p);
    MassAdd(n, p, counts[p]);
    MassRemove(counts, done + {p}, p);
    assert done + {p} - {p} == done;
    assert Splitting(row, done + {p}) == Splitting(row, done) by {
      StepAdd(row, done, p);
    }
  }

  /** Handling one more beam that splits adds its count twice below and once to the split counts. */
  lemma PartialMassSplitting(row: string, counts: map<int, int>, done: set<int>, p: int)
    requires done <= counts.Keys && p in counts && p !in done && IsSplitter(row, p)
    requires Total(Partial(row, counts, done)) == Mass(counts, done) + Mass(counts, Splitting(row, done))
    ensures Total(Partial(row, counts, done + {p})) == Mass(counts, done + {p}) + Mass(counts, Splitting(row, done + {p}))
  {
    var n := Partial(row, counts, done);
    var c := counts[p];
    PartialAddSplitting(row, counts, done, p);
    MassAdd(n, p - 1, c);
    MassAdd(Bump(n, p - 1, c), p + 1, c);
    MassRemove(counts, done + {p}, p);
    assert done + {p} - {p} == done;
    StepAdd(row, done, p);
    MassRemove(counts, Splitting(row, done + {p}), p);
    assert Splitting(row, done + {p}) - {p} == Splitting(row, done);
  }

  /** The counts below the row add up to those above plus one more for every timeline that split. */
  lemma {:induction false} PartialMass(row: string, counts: map<int, int>, done: set<int>)
    requires done <= counts.Keys
    ensures Total(Partial(row, counts, done)) == Mass(counts, done) + Mass(counts, Splitting(row, done))
    decreases done
  {
    if done == {} {
      assert Partial(row, counts, done).Keys == {};
      assert Splitting(row, done) == {};
    } else {
      Inhabited(done);
      var p :| p in done;
      var rest := done - {p};
      assert done == rest + {p};
      PartialMass(row, counts, rest);
      if IsSplitter(row, p) {
        PartialMassSplitting(row, counts, rest, p);
      } else {
        PartialMassPassing(row, counts, rest, p);
      }
    }
  }

  /** The total below a row is the total above plus the counts sitting on splitters. */
  lemma StepMass(row: string, counts: map<int, int>)
    ensures Total(StepCounts(row, counts)) == Total(counts) + Mass(counts, Splitting(row, counts.Keys))
  {
    PartialMass(row, counts, counts.Keys);
  }

  /** A Counter of positive counts sums to at least its number of keys. */
  lemma {:induction false} MassAtLeastSize(counts: map<int, int>, keys: set<int>)
    requires keys <= counts.Keys && forall k :: k in keys ==> counts[k] >= 1
    ensures Mass(counts, keys) >= |keys|
    decreases keys
  {
    if keys != {} {
      Inhabited(keys);
      var k :| k in keys;
      MassRemove(counts, keys, k);
      MassAtLeastSize(counts, keys - {k});
    }
  }

  /** Every column below the row is reached by a positive count when every count above is positive. */
  lemma StepPositive(row: string, counts: map<int, int>)
    requires forall k :: k in counts ==> counts[k] >= 1
    ensures forall q :: q in StepCounts(row, counts) ==> StepCounts(row, counts)[q] >= 1
  {
  }

  /** The Counter below all the rows: the `positions` of `part_2` after the last line. */
  function CountsFrom(start: map<int, int>, rows: seq<string>): map<int, int>
  {
    if rows == [] then start else StepCounts(rows[|rows| - 1], CountsFrom(start, rows[..|rows| - 1]))
  }

  /** What `part_2` returns: the number of timelines, None when there is no first line or it has no 'S'. */
  ghost function Timelines(lines: seq<string>): Option<int>
  {
    var s := Start(lines);
    if s.None? then None else Some(Total(CountsFrom(map[s.value := 1], Rows(lines))))
  }

  /** Row by row, the Counter's keys are exactly the beam columns of `part_1`. */
  lemma {:induction false} CountsKeys(start: map<int, int>, rows: seq<string>)
    ensures CountsFrom(start, rows).Keys == Beams(start.Keys, rows)
  {
    if rows != [] {
      CountsKeys(start, rows[..|rows| - 1]);
    }
  }

  /** Every count stays positive when the start counts are. */
  lemma {:induction false} CountsPositive(start: map<int, int>, rows: seq<string>)
    requires forall k :: k in start ==> start[k] >= 1
    ensures forall k :: k in CountsFrom(start, rows) ==> CountsFrom(start, rows)[k] >= 1
  {
    if rows != [] {
      CountsPositive(start, rows[..|rows| - 1]);
      StepPositive(rows[|rows| - 1], CountsFrom(start, rows[..|rows| - 1]));
    }
  }

  /** The total after one more row is the total before plus the counts on its splitters, so it never decreases. */
  lemma CountsTotalStep(start: map<int, int>, rows: seq<string>)
    requires rows != [] && forall k :: k in start ==> start[k] >= 1
    ensures var above := CountsFrom(start, rows[..|rows| - 1]);
      var row := rows[|rows| - 1];
      Total(CountsFrom(start, rows)) == Total(above) + Mass(above, Splitting(row, above.Keys)) &&
      Total(CountsFrom(start, rows)) >= Total(above) + |Splitting(row, Beams(start.Keys, rows[..|rows| - 1]))|
  {
    var above := CountsFrom(start, rows[..|rows| - 1]);
    var row := rows[|rows| - 1];
    StepMass(row, above);
    CountsPositive(start, rows[..|rows| - 1]);
    CountsKeys(start, rows[..|rows| - 1]);
    MassAtLeastSize(above, Splitting(row, above.Keys));
  }

  /** The number of timelines is at least one more than the number of splits of `part_1`. */
  lemma {:induction false} TotalAtLeastSplits(start: map<int, int>, rows: seq<string>)
    requires forall k :: k in start ==> start[k] >= 1
    ensures Total(CountsFrom(start, rows)) >= Total(start) + Splits(start.Keys, rows)
  {
    if rows != [] {
      TotalAtLeastSplits(start, rows[..|rows| - 1]);
      CountsTotalStep(start, rows);
    }
  }

  /** A single timeline starts at the 'S'. */
  lemma TotalSingle(s: int)
    ensures Total(map[s := 1]) == 1
  {
    assert map[s := 1].Keys == {s};
    MassRemove(map[s := 1], {s}, s);
  }

  /** `part_2` counts at least one timeline, and one more for every split `part_1` counts. */
  lemma TimelinesBound(lines: seq<string>)
    ensures Timelines(lines).None? <==> SplitCount(lines).None?
    ensures Timelines(lines).Some? ==> Timelines(lines).value >= 1 + SplitCount(lines).value
  {
    var s := Start(lines);
    if s.Some? {
      var start := map[s.value := 1];
      assert start.Keys == {s.value};
      TotalSingle(s.value);
      TotalAtLeastSplits(start, Rows(lines));
    }
  }

  /** The inner loop of `part_2`: every (position, count) of the Counter, in any order, into the next Counter. */
  method StepCountsLoop(row: string, counts: map<int, int>) returns (next: map<int, int>)
    ensures next == StepCounts(row, counts)
  {
    next := map[];
    var todo := counts.Keys;
    assert Partial(row, counts, {}) == map[];
    while todo != {}
      invariant todo <= counts.Keys
      invariant next == Partial(row, counts, counts.Keys - todo)
      decreases |todo|
    {
      Inhabited(todo);
      var p :| p in todo;
      var count := counts[p];
      var done := counts.Keys - todo;
      assert counts.Keys - (todo - {p}) == done + {p};
      if !IsSplitter(row, p) {
        PartialAddPassing(row, counts, done, p);
        next := Bump(next, p, count);
      } else {
        PartialAddSplitting(row, counts, done, p);
        next := Bump(next, p - 1, count);
        next := Bump(next, p + 1, count);
      }
      todo := todo - {p};
    }
    assert counts.Keys - todo == counts.Keys;
  }

  /** `sum(positions.values())`. */
  method SumCounts(counts: map<int, int>) returns (sum: int)
    ensures sum == Total(counts)
  {
    sum := 0;
    var todo := counts.Keys;
    while todo != {}
      invariant todo <= counts.Keys
      invariant sum == Mass(counts, counts.Keys - todo)
      decreases |todo|
    {
      Inhabited(todo);
      var k :| k in todo;
      var done := counts.Keys - todo;
      assert counts.Keys - (todo - {k}) == done + {k};
      MassRemove(counts, done + {k}, k);
      assert done + {k} - {k} == done;
      sum := sum + counts[k];
      todo := todo - {k};
    }
    assert counts.Keys - todo == counts.Keys;
  }

  /** `part_2`: follow the Counter of timelines per column down the rows and add it up. */
  method Part2(lines: seq<string>) returns (r: Option<int>)
    ensures r == Timelines(lines)
  {
    if lines == [] {
      return None;
    }
    var s := IndexOf(Strip(lines[0]), 'S');
    if s.None? {
      return None;
    }
    var rows := Rows(lines);
    var positions := map[s.value := 1];
    for k := 0 to |rows|
      invariant positions == CountsFrom(map[s.value := 1], rows[..k])
    {
      assert rows[..k + 1][..k] == rows[..k];
      var line := Strip(lines[k + 1]);
      assert line == rows[k];
      positions := StepCountsLoop(line, positions);
    }
    assert rows[..|rows|] == rows;
    var total := SumCounts(positions);
    return Some(total);
  }
}
