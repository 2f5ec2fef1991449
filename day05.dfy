/**
 * Day 5: an inventory database. The lines before the first blank line are
 * inclusive ID ranges `start-end`; the lines after it are available IDs.
 * The ranges are sorted and overlapping ones merged. Part 1 counts the
 * available IDs some range holds, finding the only candidate range by a
 * binary search over the merged ends; part 2 counts the IDs the ranges hold
 * at all, as the sum of the merged lengths.
 */
module Day05 {
  import opened Parsing
  import opened Sorting
  import opened Bisect

  /** An inclusive range of IDs. */
  type Interval = (int, int)

  function Max(a: int, b: int): int
  {
    if a >= b then a else b
  }

  // ---------------------------------------------------------------------
  // Reading the database

  /** The index of the first line that is blank once stripped, or |lines|. */
  function FirstBlank(lines: seq<string>): (k: nat)
    ensures k <= |lines|
    ensures forall i :: 0 <= i < k ==> Strip(lines[i]) != ""
    ensures k < |lines| ==> Strip(lines[k]) == ""
  {
    if lines == [] || Strip(lines[0]) == "" then 0
    else
      var k := FirstBlank(lines[1..]);
      assert forall i :: 1 <= i <= k ==> lines[i] == lines[1..][i - 1];
      1 + k
  }

  /** `start, end = (int(x) for x in line.split("-"))`: exactly two integers. */
  function ParseInterval(line: string): Option<Interval>
  {
    var parts := Split(line, "-");
    if |parts| == 2 && ParseInt(parts[0]).Some? && ParseInt(parts[1]).Some? then
      Some((ParseInt(parts[0]).value, ParseInt(parts[1]).value))
    else
      None
  }

  /** Splitting two digit strings joined by a dash gives them back. */
  lemma {:induction false} SplitDash(u: string, v: string)
    requires AllDigits(u) && AllDigits(v)
    ensures Split(u + "-" + v, "-") == [u, v]
  {
    if u == [] {
      assert u + "-" + v == "-" + v;
      assert ("-" + v)[1..] == v;
      SplitDigits(v);
    } else {
      var s := u + "-" + v;
      assert s[0] == u[0] && IsDigit(u[0]);
      assert s[1..] == u[1..] + "-" + v;
      assert AllDigits(u[1..]) by {
        forall k | 0 <= k < |u[1..]| ensures IsDigit(u[1..][k])
        {
          assert u[1..][k] == u[k + 1];
        }
      }
      SplitDash(u[1..], v);
      assert [u[0]] + u[1..] == u;
    }
  }

  /** A digit string holds no dash, so splitting leaves it whole. */
  lemma {:induction false} SplitDigits(v: string)
    requires AllDigits(v)
    ensures Split(v, "-") == [v]
  {
    if |v| >= 1 {
      assert IsDigit(v[0]);
      assert AllDigits(v[1..]) by {
        forall k | 0 <= k < |v[1..]| ensures IsDigit(v[1..][k])
        {
          assert v[1..][k] == v[k + 1];
        }
      }
      SplitDigits(v[1..]);
      assert [v[0]] + v[1..] == v;
    }
  }

  /** The line `a-b` written in decimal reads back as the interval (a, b). */
  lemma ParseIntervalDecimal(a: nat, b: nat)
    ensures ParseInterval(Decimal(a) + "-" + Decimal(b)) == Some((a, b))
  {
    SplitDash(Decimal(a), Decimal(b));
    ParseIntDecimal(a);
    ParseIntDecimal(b);
  }

  /** One interval line, stripped first. */
  function ReadInterval(line: string): Option<Interval>
  {
    ParseInterval(Strip(line))
  }

  /** Every line parsed as an interval after stripping, or None if one fails. */
  function ParseIntervals(ls: seq<string>): Option<seq<Interval>>
  {
    ParseAll(ls, ReadInterval)
  }

  /** The lines parse exactly when each one does, each to its own interval in order. */
  lemma ParseIntervalsAt(ls: seq<string>)
    ensures var r := ParseIntervals(ls);
      (r.Some? <==> forall i :: 0 <= i < |ls| ==> ParseInterval(Strip(ls[i])).Some?) &&
      (r.Some? ==> |r.value| == |ls| && forall i :: 0 <= i < |ls| ==> r.value[i] == ParseInterval(Strip(ls[i])).value)
  {
    ParseAllAt(ls, ReadInterval);
  }

  /** The intervals: the lines before the first blank one. */
  function Intervals(lines: seq<string>): Option<seq<Interval>>
  {
    ParseIntervals(lines[..FirstBlank(lines)])
  }

  /** The lines after the first blank one (none when there is no blank line). */
  function IdLines(lines: seq<string>): (ids: seq<string>)
    ensures |ids| < |lines| - FirstBlank(lines) || (ids == [] && FirstBlank(lines) == |lines|)
  {
    var k := FirstBlank(lines);
    if k < |lines| then lines[k + 1..] else []
  }

  /** `_read_intervals`: read lines until a blank one, parsing each as an interval. */
  method ReadIntervals(lines: seq<string>) returns (r: Option<seq<Interval>>, next: nat)
    ensures r == Intervals(lines)
    ensures r.Some? ==> next <= |lines| && lines[next..] == IdLines(lines)
  {
    var acc: seq<Interval> := [];
    var k := 0;
    while k < |lines| && Strip(lines[k]) != ""
      invariant k <= FirstBlank(lines)
      invariant ParseIntervals(lines[..k]) == Some(acc)
    {
      var iv := ParseInterval(Strip(lines[k]));
      if iv.None? {
        ReadFails(lines, k);
        return None, k;
      }
      ReadMore(lines, k, acc);
      acc := acc + [iv.value];
      k := k + 1;
    }
    r := Some(acc);
    next := if k < |lines| then k + 1 else k;
  }

  /** One more interval line that parses extends the list by its interval. */
  lemma ReadMore(lines: seq<string>, k: nat, acc: seq<Interval>)
    requires k < |lines| && ParseIntervals(lines[..k]) == Some(acc) && ReadInterval(lines[k]).Some?
    ensures ParseIntervals(lines[..k + 1]) == Some(acc + [ReadInterval(lines[k]).value])
  {
    assert lines[..k + 1][..k] == lines[..k];
  }

  /** An interval line that does not parse makes the whole read fail. */
  lemma ReadFails(lines: seq<string>, k: nat)
    requires k < |lines| && Strip(lines[k]) != "" && k <= FirstBlank(lines)
    requires ReadInterval(lines[k]).None?
    ensures Intervals(lines) == None
  {
    var fb := FirstBlank(lines);
    assert k < fb;
    ParseIntervalsAt(lines[..fb]);
    assert lines[..fb][k] == lines[k];
  }

  // ---------------------------------------------------------------------
  // Merging

  /** One round of the merge loop: widen the last interval, or append. */
  function MergeStep(acc: seq<Interval>, iv: Interval): (r: seq<Interval>)
    ensures |r| == |acc| || |r| == |acc| + 1
    ensures r != []
  {
    if acc != [] && iv.0 <= acc[|acc| - 1].1 then
      acc[..|acc| - 1] + [(acc[|acc| - 1].0, Max(acc[|acc| - 1].1, iv.1))]
    else
      acc + [iv]
  }

  /** The merge loop of `_get_intervals` run over `s` in order. */
  function Merge(s: seq<Interval>): (m: seq<Interval>)
    ensures |m| <= |s| && (s != [] ==> m != [])
  {
    if s == [] then [] else MergeStep(Merge(s[..|s| - 1]), s[|s| - 1])
  }

  /** Each interval starts after the previous one ends. */
  predicate Chain(m: seq<Interval>)
  {
    forall i {:trigger m[i]} :: 0 < i < |m| ==> m[i - 1].1 < m[i].0
  }

  predicate StartsSorted(m: seq<Interval>)
  {
    forall i {:trigger m[i]} :: 0 < i < |m| ==> m[i - 1].0 <= m[i].0
  }

  /** Every interval is non-empty: start <= end. */
  predicate WellFormed(s: seq<Interval>)
  {
    forall iv {:trigger iv in s} :: iv in s ==> iv.0 <= iv.1
  }

  /** Some interval holds `x`. */
  ghost predicate Covers(s: seq<Interval>, x: int)
  {
    exists iv {:trigger iv in s} :: iv in s && iv.0 <= x <= iv.1
  }

  lemma SortedPrefix(s: seq<Interval>, n: nat)
    requires Sorted(s, PairLe) && n <= |s|
    ensures Sorted(s[..n], PairLe)
  {
    forall i, j | 0 <= i < j < n ensures PairLe(s[..n][i], s[..n][j])
    {
      assert s[..n][i] == s[i] && s[..n][j] == s[j];
    }
  }

  /** A merge step keeps a chain with ascending starts when the new interval starts no earlier. */
  lemma MergeStepShape(acc: seq<Interval>, iv: Interval)
    requires Chain(acc) && StartsSorted(acc)
    requires acc != [] ==> acc[|acc| - 1].0 <= iv.0
    ensures Chain(MergeStep(acc, iv)) && StartsSorted(MergeStep(acc, iv))
    ensures MergeStep(acc, iv)[|MergeStep(acc, iv)| - 1].0 <= iv.0
  {
    var m := MergeStep(acc, iv);
    if acc != [] && iv.0 <= acc[|acc| - 1].1 {
      forall i {:trigger m[i]} | 0 < i < |m| ensures m[i - 1].1 < m[i].0 && m[i - 1].0 <= m[i].0
      {
        assert m[i - 1] == acc[i - 1];
        if i < |m| - 1 {
          assert m[i] == acc[i];
        } else {
          assert m[i].0 == acc[i].0;
        }
      }
    } else {
      forall i {:trigger m[i]} | 0 < i < |m| ensures m[i - 1].1 < m[i].0 && m[i - 1].0 <= m[i].0
      {
        assert m[i - 1] == acc[i - 1];
        if i < |m| - 1 {
          assert m[i] == acc[i];
        }
      }
    }
  }

  /**
   * Merging sorted intervals gives a chain of separated intervals with
   * ascending starts, the last of which starts no later than the last input.
   */
  lemma {:induction false} MergeShape(s: seq<Interval>)
    requires Sorted(s, PairLe)
    ensures Chain(Merge(s)) && StartsSorted(Merge(s))
    ensures s != [] ==> Merge(s)[|Merge(s)| - 1].0 <= s[|s| - 1].0
  {
    if s != [] {
      var p := s[..|s| - 1];
      SortedPrefix(s, |s| - 1);
      MergeShape(p);
      if p != [] {
        assert PairLe(s[|s| - 2], s[|s| - 1]);
        assert p[|p| - 1] == s[|s| - 2];
      }
      MergeStepShape(Merge(p), s[|s| - 1]);
    }
  }

  /** Whether an interval list with one more interval holds `x`. */
  lemma CoversSnoc(p: seq<Interval>, q: Interval, x: int)
    ensures Covers(p + [q], x) <==> Covers(p, x) || q.0 <= x <= q.1
  {
    if Covers(p + [q], x) {
      var iv :| iv in p + [q] && iv.0 <= x <= iv.1;
      if iv != q {
        assert iv in p;
      }
    }
    if Covers(p, x) {
      var iv :| iv in p && iv.0 <= x <= iv.1;
      assert iv in p + [q];
    }
    if q.0 <= x <= q.1 {
      assert q in p + [q];
    }
  }

  /** A merge step holds what the list held and what the new interval holds. */
  lemma MergeStepCovers(acc: seq<Interval>, iv: Interval, x: int)
    requires acc != [] ==> acc[|acc| - 1].0 <= iv.0
    ensures Covers(MergeStep(acc, iv), x) <==> Covers(acc, x) || iv.0 <= x <= iv.1
  {
    if acc != [] && iv.0 <= acc[|acc| - 1].1 {
      var init := acc[..|acc| - 1];
      var last := acc[|acc| - 1];
      assert acc == init + [last];
      CoversSnoc(init, last, x);
      CoversSnoc(init, (last.0, Max(last.1, iv.1)), x);
    } else {
      CoversSnoc(acc, iv, x);
    }
  }

  /** Merging sorted intervals keeps exactly the IDs they hold. */
  /** The last merged interval of a sorted prefix starts no later than the next interval. */
  lemma MergeLastStart(s: seq<Interval>)
    requires Sorted(s, PairLe) && s != []
    ensures var m := Merge(s[..|s| - 1]); m != [] ==> m[|m| - 1].0 <= s[|s| - 1].0
  {
    var p := s[..|s| - 1];
    SortedPrefix(s, |s| - 1);
    MergeShape(p);
    if p != [] {
      assert PairLe(s[|s| - 2], s[|s| - 1]);
      assert p[|p| - 1] == s[|s| - 2];
    }
  }

  lemma {:induction false} MergeCovers(s: seq<Interval>, x: int)
    requires Sorted(s, PairLe)
    ensures Covers(Merge(s), x) <==> Covers(s, x)
  {
    if s != [] {
      var p := s[..|s| - 1];
      var iv := s[|s| - 1];
      SortedPrefix(s, |s| - 1);
      MergeCovers(p, x);
      MergeLastStart(s);
      MergeStepCovers(Merge(p), iv, x);
      assert s == p + [iv];
      CoversSnoc(p, iv, x);
    }
  }

  /** Intervals with the same members hold the same IDs. */
  lemma CoversPermutation(a: seq<Interval>, b: seq<Interval>, x: int)
    requires multiset(a) == multiset(b)
    ensures Covers(a, x) <==> Covers(b, x)
  {
    if Covers(a, x) {
      var iv :| iv in a && iv.0 <= x <= iv.1;
      assert iv in multiset(b);
      assert iv in b;
    }
    if Covers(b, x) {
      var iv :| iv in b && iv.0 <= x <= iv.1;
      assert iv in multiset(a);
      assert iv in a;
    }
  }

  /** Merging non-empty intervals gives non-empty intervals. */
  lemma {:induction false} MergeWellFormed(s: seq<Interval>)
    requires WellFormed(s)
    ensures WellFormed(Merge(s))
  {
    if s != [] {
      var p := s[..|s| - 1];
      var iv := s[|s| - 1];
      assert WellFormed(p) by {
        forall q | q in p ensures q.0 <= q.1
        {
          assert q in s;
        }
      }
      MergeWellFormed(p);
      assert iv in s;
      var acc := Merge(p);
      var m := MergeStep(acc, iv);
      forall q | q in m ensures q.0 <= q.1
      {
        if acc != [] && iv.0 <= acc[|acc| - 1].1 {
          assert acc[|acc| - 1] in acc;
          if q in acc[..|acc| - 1] {
            assert q in acc;
          }
        } else if q != iv {
          assert q in acc;
        }
      }
    }
  }

  /** A chain of separated intervals is already merged: merging it changes nothing. */
  lemma {:induction false} MergeFixed(m: seq<Interval>)
    requires Chain(m)
    ensures Merge(m) == m
  {
    if m != [] {
      var p := m[..|m| - 1];
      assert Chain(p) by {
        forall i {:trigger p[i]} | 0 < i < |p| ensures p[i - 1].1 < p[i].0
        {
          assert p[i - 1] == m[i - 1] && p[i] == m[i];
        }
      }
      MergeFixed(p);
      if p != [] {
        assert m[|m| - 1].0 > m[|m| - 2].1;
      }
      assert p + [m[|m| - 1]] == m;
    }
  }

  /** Ranges that touch without sharing an ID, like 3-5 and 6-8, stay apart. */
  lemma AdjacentStayApart(a: int, b: int, d: int)
    ensures Merge([(a, b), (b + 1, d)]) == [(a, b), (b + 1, d)]
  {
    MergeFixed([(a, b), (b + 1, d)]);
  }

  /** The ends of the intervals, the keys `bisect_left` searches. */
  function Ends(m: seq<Interval>): (e: seq<int>)
    ensures |e| == |m| && forall i :: 0 <= i < |m| ==> e[i] == m[i].1
  {
    seq(|m|, i requires 0 <= i < |m| => m[i].1)
  }

  /** In a chain of non-empty intervals every interval lies wholly before each later one. */
  lemma {:induction false} ChainApart(m: seq<Interval>, i: int, j: int)
    requires WellFormed(m) && Chain(m) && 0 <= i < j < |m|
    ensures m[i].1 < m[j].0
    decreases j - i
  {
    if j > i + 1 {
      ChainApart(m, i, j - 1);
      assert m[j - 1] in m;
    }
    assert m[j] == m[j];
  }

  /** What sorting and then merging gives: a shorter chain holding the same IDs. */
  lemma SortMergeShape(raw: seq<Interval>)
    ensures |Merge(SortBy(raw, PairLe))| <= |raw|
    ensures Chain(Merge(SortBy(raw, PairLe))) && StartsSorted(Merge(SortBy(raw, PairLe)))
    ensures forall x {:trigger Covers(raw, x)} :: Covers(Merge(SortBy(raw, PairLe)), x) <==> Covers(raw, x)
    ensures WellFormed(raw) ==> WellFormed(Merge(SortBy(raw, PairLe)))
  {
    var sorted := SortBy(raw, PairLe);
    PairLeOrders();
    SortBySorted(raw, PairLe);
    MergeShape(sorted);
    forall x ensures Covers(Merge(sorted), x) <==> Covers(raw, x)
    {
      MergeCovers(sorted, x);
      CoversPermutation(sorted, raw, x);
    }
    if WellFormed(raw) {
      assert WellFormed(sorted) by {
        forall iv | iv in sorted ensures iv.0 <= iv.1
        {
          assert iv in multiset(raw);
          assert iv in raw;
        }
      }
      MergeWellFormed(sorted);
    }
  }

  /** `_get_intervals`: sort, then merge each interval into the last one it overlaps. */
  method GetIntervals(raw: seq<Interval>) returns (merged: seq<Interval>)
    ensures merged == Merge(SortBy(raw, PairLe))
    ensures |merged| <= |raw|
    ensures Chain(merged) && StartsSorted(merged)
    ensures forall x {:trigger Covers(raw, x)} :: Covers(merged, x) <==> Covers(raw, x)
    ensures WellFormed(raw) ==> WellFormed(merged)
  {
    var sorted := SortBy(raw, PairLe);
    merged := MergeLoop(sorted);
    SortMergeShape(raw);
  }

  /** The merge loop of `_get_intervals`: widen the last interval or append, one interval at a time. */
  method MergeLoop(sorted: seq<Interval>) returns (merged: seq<Interval>)
    ensures merged == Merge(sorted)
  {
    merged := [];
    for k := 0 to |sorted|
      invariant merged == Merge(sorted[..k])
    {
      assert sorted[..k + 1][..k] == sorted[..k];
      if merged != [] && sorted[k].0 <= merged[|merged| - 1].1 {
        merged := merged[..|merged| - 1] + [(merged[|merged| - 1].0, Max(merged[|merged| - 1].1, sorted[k].1))];
      } else {
        merged := merged + [sorted[k]];
      }
    }
    assert sorted[..|sorted|] == sorted;
  }

  /** Merged non-empty intervals are sorted, so sorting and merging them again changes nothing. */
  lemma GetIntervalsIdempotent(m: seq<Interval>)
    requires WellFormed(m) && Chain(m)
    ensures Merge(SortBy(m, PairLe)) == m
  {
    forall i, j | 0 <= i < j < |m| ensures PairLe(m[i], m[j])
    {
      ChainApart(m, i, j);
      assert m[i] in m;
    }
    SortByIdentity(m, PairLe);
    MergeFixed(m);
  }

  // ---------------------------------------------------------------------
  // Part 1: the available IDs that are fresh

  /**
   * On a chain of non-empty intervals, the interval at the `bisect_left`
   * index over the ends holds `x` exactly when some interval does; past the
   * last end no interval does.
   */
  lemma LookupCorrect(m: seq<Interval>, x: int, i: int)
    requires WellFormed(m) && Chain(m) && 0 <= i <= |m|
    requires forall k :: 0 <= k < i ==> m[k].1 < x
    requires forall k :: i <= k < |m| ==> x <= m[k].1
    ensures (i < |m| && m[i].0 <= x <= m[i].1) <==> Covers(m, x)
  {
    if i < |m| && m[i].0 <= x <= m[i].1 {
      assert m[i] in m;
    }
    if Covers(m, x) {
      var iv :| iv in m && iv.0 <= x <= iv.1;
      var j :| 0 <= j < |m| && m[j] == iv;
      if j > i {
        ChainApart(m, i, j);
      }
    }
  }

  lemma EndsSorted(m: seq<Interval>)
    requires WellFormed(m) && Chain(m)
    ensures SortedKeys(Ends(m))
  {
    forall i, j | 0 <= i < j < |m| ensures m[i].1 <= m[j].1
    {
      ChainApart(m, i, j);
      assert m[j] in m;
    }
  }

  /** How many of `ids` some interval holds, counting repeats. */
  ghost function CountCovered(ids: seq<int>, s: seq<Interval>): (n: nat)
    ensures n <= |ids|
  {
    if ids == [] then 0
    else CountCovered(ids[..|ids| - 1], s) + (if Covers(s, ids[|ids| - 1]) then 1 else 0)
  }

  lemma CountCoveredSnoc(ids: seq<int>, x: int, s: seq<Interval>)
    ensures CountCovered(ids + [x], s) == CountCovered(ids, s) + (if Covers(s, x) then 1 else 0)
  {
    assert (ids + [x])[..|ids|] == ids;
  }

  lemma ParseIntsStep(ls: seq<string>, n: nat)
    requires n < |ls|
    ensures ParseInts(ls[..n + 1]) ==
      if ParseInts(ls[..n]).Some? && ParseInt(ls[n]).Some? then Some(ParseInts(ls[..n]).value + [ParseInt(ls[n]).value]) else None
  {
    assert ls[..n + 1][..n] == ls[..n];
  }

  /** An ID line that fails to parse fails the whole list. */
  lemma {:induction false} PrefixFailsInts(ls: seq<string>, n: nat)
    requires n <= |ls| && ParseInts(ls[..n]).None?
    ensures ParseInts(ls).None?
    decreases |ls|
  {
    if n < |ls| {
      assert ls[..|ls| - 1][..n] == ls[..n];
      PrefixFailsInts(ls[..|ls| - 1], n);
    } else {
      assert ls[..n] == ls;
    }
  }

  /**
   * One ID of `part_1`: `bisect_left` over the ends, then whether the interval
   * at that index holds `x`. On non-empty merged intervals that is whether any does.
   */
  method IsFresh(intervals: seq<Interval>, ends: seq<int>, x: int) returns (held: bool)
    requires ends == Ends(intervals) && Chain(intervals)
    ensures held ==> Covers(intervals, x)
    ensures WellFormed(intervals) ==> (held <==> Covers(intervals, x))
  {
    if WellFormed(intervals) {
      EndsSorted(intervals);
    }
    var i := BisectLeft(ends, x);
    held := i < |intervals| && intervals[i].0 <= x <= intervals[i].1;
    if held {
      assert intervals[i] in intervals;
    }
    if WellFormed(intervals) {
      LookupCorrect(intervals, x, i);
    }
  }

  /**
   * `part_1`: merge the intervals, then count the ID lines some merged
   * interval holds. None when an interval or an ID does not parse.
   */
  method Part1(lines: seq<string>) returns (r: Option<int>)
    ensures r.Some? <==> Intervals(lines).Some? && ParseInts(IdLines(lines)).Some?
    ensures r.Some? ==> 0 <= r.value <= |IdLines(lines)|
    ensures r.Some? && WellFormed(Intervals(lines).value) ==>
      r.value == CountCovered(ParseInts(IdLines(lines)).value, Intervals(lines).value)
  {
    var raw, next := ReadIntervals(lines);
    if raw.None? {
      return None;
    }
    var intervals := GetIntervals(raw.value);
    var ends := Ends(intervals);
    var idLines := lines[next..];
    var result := 0;
    for k := 0 to |idLines|
      invariant ParseInts(idLines[..k]).Some?
      invariant 0 <= result <= k
      invariant WellFormed(raw.value) ==> result == CountCovered(ParseInts(idLines[..k]).value, raw.value)
    {
      var x := ParseInt(idLines[k]);
      ParseIntsStep(idLines, k);
      if x.None? {
        PrefixFailsInts(idLines, k + 1);
        return None;
      }
      var held := IsFresh(intervals, ends, x.value);
      CountCoveredSnoc(ParseInts(idLines[..k]).value, x.value, raw.value);
      if held {
        result := result + 1;
      }
    }
    assert idLines[..|idLines|] == idLines;
    return Some(result);
  }

  // ---------------------------------------------------------------------
  // Part 2: every fresh ID

  /** The IDs from `a` to `b` inclusive. */
  function Span(a: int, b: int): (r: set<int>)
    ensures forall x {:trigger x in r} :: x in r <==> a <= x <= b
    decreases b - a
  {
    if a > b then {} else Span(a, b - 1) + {b}
  }

  lemma {:induction false} SpanSize(a: int, b: int)
    requires a <= b + 1
    ensures |Span(a, b)| == b - a + 1
    decreases b - a + 1
  {
    if a <= b {
      SpanSize(a, b - 1);
      assert b !in Span(a, b - 1);
    }
  }

  /** Every ID some interval holds. */
  function CoveredSet(s: seq<Interval>): (c: set<int>)
  {
    if s == [] then {} else CoveredSet(s[..|s| - 1]) + Span(s[|s| - 1].0, s[|s| - 1].1)
  }

  lemma {:induction false} CoveredSetMembers(s: seq<Interval>, x: int)
    ensures x in CoveredSet(s) <==> Covers(s, x)
  {
    if s != [] {
      CoveredSetMembers(s[..|s| - 1], x);
      assert s == s[..|s| - 1] + [s[|s| - 1]];
      CoversSnoc(s[..|s| - 1], s[|s| - 1], x);
    } else {
      assert !Covers(s, x);
    }
  }

  /** `end - start + 1` summed over the intervals. */
  function SumLengths(m: seq<Interval>): int
  {
    if m == [] then 0 else SumLengths(m[..|m| - 1]) + (m[|m| - 1].1 - m[|m| - 1].0 + 1)
  }

  /** On a chain of non-empty intervals the lengths add up to the number of IDs held. */
  lemma {:induction false} CoveredSize(m: seq<Interval>)
    requires WellFormed(m) && Chain(m)
    ensures |CoveredSet(m)| == SumLengths(m)
  {
    if m != [] {
      var p := m[..|m| - 1];
      var last := m[|m| - 1];
      assert WellFormed(p) by {
        forall q | q in p ensures q.0 <= q.1
        {
          assert q in m;
        }
      }
      assert Chain(p) by {
        forall i {:trigger p[i]} | 0 < i < |p| ensures p[i - 1].1 < p[i].0
        {
          assert p[i - 1] == m[i - 1] && p[i] == m[i];
        }
      }
      CoveredSize(p);
      assert last in m;
      SpanSize(last.0, last.1);
      forall x | x in CoveredSet(p) ensures x !in Span(last.0, last.1)
      {
        CoveredSetMembers(p, x);
        var iv :| iv in p && iv.0 <= x <= iv.1;
        var j :| 0 <= j < |p| && p[j] == iv;
        ChainApart(m, j, |m| - 1);
      }
      assert CoveredSet(p) * Span(last.0, last.1) == {};
    }
  }

  /**
   * `part_2`: the sum of the merged lengths, which on non-empty intervals
   * is the number of IDs some interval holds. None when an interval does
   * not parse; the ID lines are never read.
   */
  method Part2(lines: seq<string>) returns (r: Option<int>)
    ensures r.Some? <==> Intervals(lines).Some?
    ensures r.Some? && WellFormed(Intervals(lines).value) ==> r.value == |CoveredSet(Intervals(lines).value)|
  {
    var raw, _ := ReadIntervals(lines);
    if raw.None? {
      return None;
    }
    var intervals := GetIntervals(raw.value);
    r := Some(SumLengths(intervals));
    if WellFormed(raw.value) {
      MergedCount(raw.value);
    }
  }

  /** Sorting and merging non-empty intervals keeps the set of IDs, and its size is the merged length sum. */
  lemma MergedCount(raw: seq<Interval>)
    requires WellFormed(raw)
    ensures CoveredSet(Merge(SortBy(raw, PairLe))) == CoveredSet(raw)
    ensures SumLengths(Merge(SortBy(raw, PairLe))) == |CoveredSet(raw)|
  {
    var merged := Merge(SortBy(raw, PairLe));
    SortMergeShape(raw);
    CoveredSize(merged);
    forall x ensures x in CoveredSet(merged) <==> x in CoveredSet(raw)
    {
      CoveredSetMembers(merged, x);
      CoveredSetMembers(raw, x);
    }
  }

  /** The decimal line `a-b` parses, stripped, as the interval (a, b). */
  lemma DecimalLine(a: nat, b: nat)
    ensures ParseInterval(Strip(Decimal(a) + "-" + Decimal(b))) == Some((a, b))
  {
    var line := Decimal(a) + "-" + Decimal(b);
    assert line[0] == Decimal(a)[0] && line[|line| - 1] == Decimal(b)[|Decimal(b)| - 1];
    assert TrimLeft(line) == line && TrimRight(line) == line;
    ParseIntervalDecimal(a, b);
  }

  /** Intervals whose bounds are natural numbers, which `FormatDatabase` can write. */
  predicate Natural(ivs: seq<Interval>)
  {
    forall iv {:trigger iv in ivs} :: iv in ivs ==> 0 <= iv.0 && 0 <= iv.1
  }

  /** A database file: one `a-b` line per interval, a blank line, one line per ID. */
  function FormatDatabase(ivs: seq<Interval>, ids: seq<nat>): (lines: seq<string>)
    requires Natural(ivs)
    ensures |lines| == |ivs| + 1 + |ids|
  {
    seq(|ivs|, i requires 0 <= i < |ivs| => (assert ivs[i] in ivs; Decimal(ivs[i].0) + "-" + Decimal(ivs[i].1)))
      + [""] + seq(|ids|, i requires 0 <= i < |ids| => Decimal(ids[i]))
  }

  /** Decimal IDs parse back to the IDs. */
  lemma {:induction false} ParseDecimals(ids: seq<nat>, ls: seq<string>)
    requires |ls| == |ids| && forall i :: 0 <= i < |ids| ==> ls[i] == Decimal(ids[i])
    ensures ParseInts(ls) == Some(ids)
  {
    if ids != [] {
      var n := |ids| - 1;
      ParseDecimals(ids[..n], ls[..n]);
      ParseIntDecimal(ids[n]);
      assert ids[..n] + [ids[n]] == ids;
    }
  }

  /** A written database reads back: its intervals, then its ID lines and IDs. */
  lemma ReadFormatted(ivs: seq<Interval>, ids: seq<nat>)
    requires Natural(ivs)
    ensures FirstBlank(FormatDatabase(ivs, ids)) == |ivs|
    ensures Intervals(FormatDatabase(ivs, ids)) == Some(ivs)
    ensures IdLines(FormatDatabase(ivs, ids)) == seq(|ids|, i requires 0 <= i < |ids| => Decimal(ids[i]))
    ensures ParseInts(IdLines(FormatDatabase(ivs, ids))) == Some(ids)
  {
    var lines := FormatDatabase(ivs, ids);
    forall i | 0 <= i < |ivs| ensures ParseInterval(Strip(lines[i])) == Some(ivs[i])
    {
      assert ivs[i] in ivs;
      DecimalLine(ivs[i].0, ivs[i].1);
    }
    assert Strip(lines[|ivs|]) == "";
    assert lines[..|ivs|][..] == lines[..|ivs|];
    assert forall i :: 0 <= i < |ivs| ==> lines[..|ivs|][i] == lines[i];
    ParseAllBack(lines[..|ivs|], ReadInterval, ivs);
    assert lines[|ivs| + 1..] == seq(|ids|, i requires 0 <= i < |ids| => Decimal(ids[i]));
    ParseDecimals(ids, lines[|ivs| + 1..]);
  }

  /** The example database. */
  const ExampleIntervals: seq<Interval> := [(3, 5), (10, 14), (16, 20), (12, 18)]
  const ExampleIds: seq<nat> := [1, 5, 8, 11, 17, 32]

  lemma ExampleRangeLines()
    ensures Natural(ExampleIntervals)
    ensures var f := FormatDatabase(ExampleIntervals, ExampleIds);
      f[0] == "3-5" && f[1] == "10-14" && f[2] == "16-20" && f[3] == "12-18" && f[4] == ""
  {
    assert Decimal(3) == "3" && Decimal(5) == "5" && Decimal(10) == "10" && Decimal(14) == "14";
    assert Decimal(16) == "16" && Decimal(20) == "20" && Decimal(12) == "12" && Decimal(18) == "18";
  }

  lemma ExampleIdLines()
    ensures Natural(ExampleIntervals)
    ensures var f := FormatDatabase(ExampleIntervals, ExampleIds);
      f[5] == "1" && f[6] == "5" && f[7] == "8" && f[8] == "11" && f[9] == "17" && f[10] == "32"
  {
    assert Decimal(1) == "1" && Decimal(5) == "5" && Decimal(8) == "8";
    assert Decimal(11) == "11" && Decimal(17) == "17" && Decimal(32) == "32";
  }

  /** The example file text is the written form of its intervals and IDs. */
  lemma ExampleText()
    ensures Natural(ExampleIntervals)
    ensures FormatDatabase(ExampleIntervals, ExampleIds)
      == ["3-5", "10-14", "16-20", "12-18", "", "1", "5", "8", "11", "17", "32"]
  {
    ExampleRangeLines();
    ExampleIdLines();
  }

  /** 5, 11 and 17 lie in a range; 1, 8 and 32 in none. */
  lemma ExampleCovers(raw: seq<Interval>)
    requires raw == ExampleIntervals
    ensures !Covers(raw, 1) && Covers(raw, 5) && !Covers(raw, 8)
    ensures Covers(raw, 11) && Covers(raw, 17) && !Covers(raw, 32)
  {
    assert raw[0] in raw && raw[1] in raw && raw[2] in raw;
  }

  lemma ExampleCount(raw: seq<Interval>)
    requires raw == ExampleIntervals
    ensures CountCovered(ExampleIds, raw) == 3
  {
    ExampleCovers(raw);
    var e: seq<int> := [];
    CountCoveredSnoc(e, 1, raw);
    e := e + [1];
    CountCoveredSnoc(e, 5, raw);
    e := e + [5];
    CountCoveredSnoc(e, 8, raw);
    e := e + [8];
    CountCoveredSnoc(e, 11, raw);
    e := e + [11];
    CountCoveredSnoc(e, 17, raw);
    e := e + [17];
    CountCoveredSnoc(e, 32, raw);
    e := e + [32];
    assert e == ExampleIds;
  }

  /** The example's ranges hold 3-5 and 10-20. */
  lemma ExampleCoversRange(x: int)
    ensures Covers(ExampleIntervals, x) <==> 3 <= x <= 5 || 10 <= x <= 20
  {
    var raw := ExampleIntervals;
    if 3 <= x <= 5 {
      assert raw[0] in raw;
    } else if 10 <= x <= 14 {
      assert raw[1] in raw;
    } else if 16 <= x <= 20 {
      assert raw[2] in raw;
    } else if 12 <= x <= 18 {
      assert raw[3] in raw;
    }
  }

  lemma ExampleCovered()
    ensures CoveredSet(ExampleIntervals) == Span(3, 5) + Span(10, 20)
  {
    forall x ensures x in CoveredSet(ExampleIntervals) <==> x in Span(3, 5) + Span(10, 20)
    {
      CoveredSetMembers(ExampleIntervals, x);
      ExampleCoversRange(x);
    }
  }

  /** Two spans, the second wholly after the first, hold their lengths together. */
  lemma SpansApart(a: int, b: int, c: int, d: int)
    requires a <= b + 1 && b < c && c <= d + 1
    ensures |Span(a, b) + Span(c, d)| == (b - a + 1) + (d - c + 1)
  {
    SpanSize(a, b);
    SpanSize(c, d);
    assert Span(a, b) * Span(c, d) == {};
  }

  lemma ExampleWellFormed()
    ensures WellFormed(ExampleIntervals)
  {
    assert ExampleIntervals[3] in ExampleIntervals;
  }

  /** 3 + 11 IDs. */
  lemma ExampleSize()
    ensures |CoveredSet(ExampleIntervals)| == 14
  {
    ExampleCovered();
    SpansApart(3, 5, 10, 20);
  }

  /** On the example file `part_1` gives 3 and `part_2` gives 14. */
  lemma ExampleAnswers()
    ensures Intervals(["3-5", "10-14", "16-20", "12-18", "", "1", "5", "8", "11", "17", "32"]) == Some(ExampleIntervals)
    ensures ParseInts(IdLines(["3-5", "10-14", "16-20", "12-18", "", "1", "5", "8", "11", "17", "32"])) == Some(ExampleIds)
    ensures WellFormed(ExampleIntervals)
    ensures CountCovered(ExampleIds, ExampleIntervals) == 3
    ensures |CoveredSet(ExampleIntervals)| == 14
  {
    ExampleText();
    ReadFormatted(ExampleIntervals, ExampleIds);
    ExampleCount(ExampleIntervals);
    ExampleWellFormed();
    ExampleSize();
  }
}
