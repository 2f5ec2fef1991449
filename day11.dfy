/**
 * Day 11: a list of devices, each line naming a device and the devices its
 * outputs feed. Part 1 counts the paths from `you` to `out` by a depth-first
 * walk with an explicit stack. Part 2 counts the paths from `svr` to `out`
 * that pass through both `dac` and `fft`, by a dynamic programme over the
 * reversed edges that finishes a device once all its outputs are finished.
 *
 * Both walks assume the graph has no cycle; the model asks for a ranking of
 * the devices that every edge lowers, which is the same thing for a finite
 * graph.
 */
module Day11 {
  import opened Parsing

  /** A parsed line: a device and the devices its outputs feed. */
  type Entry = (string, seq<string>)

  // ---------------------------------------------------------------------
  // Parsing

  /** `line.strip().split(": ")` must give exactly two parts; the second is split on whitespace. */
  function ParseEntry(line: string): (r: Option<Entry>)
    ensures r.Some? ==> r.value.1 != []
  {
    var parts := Split(Strip(line), ": ");
    if |parts| != 2 then None
    else
      StripSplitLast(line);
      Some((parts[0], Words(parts[1])))
  }

  /** The last part of a split ends the text, and a separator ends the text when that part is empty and not alone. */
  predicate EndsSplit(s: string, sep: string, parts: seq<string>)
    requires |sep| > 0 && |parts| >= 1
  {
    var last := parts[|parts| - 1];
    (|parts| == 1 ==> parts[0] == s) &&
    (|parts| >= 2 ==> |s| >= |sep|) &&
    |last| <= |s| &&
    (last != [] ==> last[|last| - 1] == s[|s| - 1]) &&
    (|parts| >= 2 && last == [] ==> s[|s| - 1] == sep[|sep| - 1])
  }

  lemma {:induction false} SplitLast(s: string, sep: string)
    requires |sep| > 0
    ensures EndsSplit(s, sep, Split(s, sep))
    decreases |s|
  {
    if |s| >= |sep| {
      var parts := Split(s, sep);
      if s[..|sep|] == sep {
        var rest := Split(s[|sep|..], sep);
        SplitLast(s[|sep|..], sep);
        assert parts == [""] + rest;
        EndsAfterSep(s, sep, rest, parts);
      } else {
        var rest := Split(s[1..], sep);
        SplitLast(s[1..], sep);
        assert parts == [[s[0]] + rest[0]] + rest[1..];
        EndsAfterChar(s, sep, rest, parts);
      }
    }
  }

  lemma EndsAfterSep(s: string, sep: string, rest: seq<string>, parts: seq<string>)
    requires |sep| > 0 && |s| >= |sep| && s[..|sep|] == sep && |rest| >= 1
    requires EndsSplit(s[|sep|..], sep, rest) && parts == [""] + rest
    ensures EndsSplit(s, sep, parts)
  {
    var tail := s[|sep|..];
    assert parts[|parts| - 1] == rest[|rest| - 1];
    if tail != [] {
      assert s[|s| - 1] == tail[|tail| - 1];
    } else {
      assert s == s[..|sep|];
    }
  }

  lemma EndsAfterChar(s: string, sep: string, rest: seq<string>, parts: seq<string>)
    requires |sep| > 0 && |s| >= 1 && |rest| >= 1
    requires EndsSplit(s[1..], sep, rest) && parts == [[s[0]] + rest[0]] + rest[1..]
    ensures EndsSplit(s, sep, parts)
  {
    var tail := s[1..];
    if |rest| == 1 {
      assert parts[0] == [s[0]] + tail == s;
    } else {
      assert parts[|parts| - 1] == rest[|rest| - 1];
      assert s[|s| - 1] == tail[|tail| - 1];
    }
  }

  /** Text whose last character is not whitespace has a word. */
  lemma {:induction false} WordsNonEmpty(s: string)
    requires s != [] && !IsSpace(s[|s| - 1])
    ensures Words(s) != []
    decreases |s|
  {
    if IsSpace(s[0]) {
      WordsNonEmpty(s[1..]);
    }
  }

  /** After `strip`, a second part of `split(": ")` is non-empty and ends in a non-space, so it has a word. */
  lemma StripSplitLast(line: string)
    requires |Split(Strip(line), ": ")| == 2
    ensures Words(Split(Strip(line), ": ")[1]) != []
  {
    var t := Strip(line);
    SplitLast(t, ": ");
    WordsNonEmpty(Split(t, ": ")[1]);
  }

  /** A device name as the puzzle writes them: lower-case letters. */
  predicate IsName(s: string)
  {
    |s| >= 1 && forall k :: 0 <= k < |s| ==> 'a' <= s[k] <= 'z'
  }

  /** Names separated by single spaces. */
  function Spaced(names: seq<string>): string
  {
    if names == [] then ""
    else if |names| == 1 then names[0]
    else Spaced(names[..|names| - 1]) + " " + names[|names| - 1]
  }

  /** The puzzle's spelling of a line: the device, ": ", then its outputs. */
  function FormatEntry(e: Entry): string
  {
    e.0 + ": " + Spaced(e.1)
  }

  /** Spaced names hold letters and spaces, and end in a letter. */
  lemma {:induction false} SpacedChars(names: seq<string>)
    requires forall k :: 0 <= k < |names| ==> IsName(names[k])
    ensures forall k :: 0 <= k < |Spaced(names)| ==> Spaced(names)[k] == ' ' || 'a' <= Spaced(names)[k] <= 'z'
    ensures names != [] ==> Spaced(names) != [] && 'a' <= Spaced(names)[|Spaced(names)| - 1] <= 'z'
  {
    if |names| >= 2 {
      SpacedChars(names[..|names| - 1]);
    }
  }

  /** The words of spaced names are the names. */
  lemma {:induction false} SpacedWords(names: seq<string>)
    requires forall k :: 0 <= k < |names| ==> IsName(names[k])
    ensures Words(Spaced(names)) == names
  {
    if names != [] {
      var n := |names|;
      var last := names[n - 1];
      assert IsName(last);
      WordsWhole(last);
      if n >= 2 {
        var init := names[..n - 1];
        SpacedWords(init);
        WordsAround(Spaced(init), last);
        assert names == init + [last];
      }
    }
  }

  /** A well-spelled line: a name, then one or more names. */
  predicate Spelled(e: Entry)
  {
    IsName(e.0) && e.1 != [] && forall k :: 0 <= k < |e.1| ==> IsName(e.1[k])
  }

  /** Reading a line the puzzle wrote gives back its device and outputs. */
  lemma ParseFormatEntry(e: Entry)
    requires Spelled(e)
    ensures ParseEntry(FormatEntry(e)) == Some(e)
  {
    var line := FormatEntry(e);
    var rest := Spaced(e.1);
    SpacedChars(e.1);
    SpacedWords(e.1);
    assert line[0] == e.0[0];
    assert line[|line| - 1] == rest[|rest| - 1];
    StripEnds(line);
    SplitFirst(e.0, ": ", rest);
    SplitNone(rest, ": ");
    assert Split(line, ": ") == [e.0, rest];
  }

  /** The generator over the file's lines: None as soon as one line does not parse. */
  function ParseEntries(lines: seq<string>): (r: Option<seq<Entry>>)
    ensures r.Some? ==> |r.value| == |lines|
    ensures r.Some? ==> forall k :: 0 <= k < |lines| ==> ParseEntry(lines[k]) == Some(r.value[k])
  {
    if lines == [] then Some([])
    else
      var init := ParseEntries(lines[..|lines| - 1]);
      var last := ParseEntry(lines[|lines| - 1]);
      if init.Some? && last.Some? then Some(init.value + [last.value]) else None
  }

  /** A line that does not parse makes the whole input fail. */
  lemma {:induction false} ParseEntriesFails(lines: seq<string>, j: int)
    requires 0 <= j < |lines| && ParseEntry(lines[j]).None?
    ensures ParseEntries(lines) == None
  {
    if j < |lines| - 1 {
      ParseEntriesFails(lines[..|lines| - 1], j);
    }
  }

  /** The parsing loop over the lines. */
  method ReadEntries(lines: seq<string>) returns (r: Option<seq<Entry>>)
    ensures r == ParseEntries(lines)
  {
    var entries: seq<Entry> := [];
    for j := 0 to |lines|
      invariant ParseEntries(lines[..j]) == Some(entries)
    {
      var e := ParseEntry(lines[j]);
      if e.None? {
        ParseEntriesFails(lines, j);
        return None;
      }
      assert lines[..j + 1][..j] == lines[..j];
      entries := entries + [e.value];
    }
    assert lines[..|lines|] == lines;
    return Some(entries);
  }

  /** The lines the puzzle writes for a list of entries. */
  function FormatLines(entries: seq<Entry>): (lines: seq<string>)
    ensures |lines| == |entries|
  {
    if entries == [] then [] else FormatLines(entries[..|entries| - 1]) + [FormatEntry(entries[|entries| - 1])]
  }

  /** Reading the lines the puzzle wrote gives back the entries. */
  lemma {:induction false} ParseFormatted(entries: seq<Entry>)
    requires forall k :: 0 <= k < |entries| ==> Spelled(entries[k])
    ensures ParseEntries(FormatLines(entries)) == Some(entries)
  {
    if entries != [] {
      var n := |entries|;
      ParseFormatted(entries[..n - 1]);
      ParseFormatEntry(entries[n - 1]);
      var lines := FormatLines(entries);
      assert lines[..n - 1] == FormatLines(entries[..n - 1]);
      assert entries == entries[..n - 1] + [entries[n - 1]];
    }
  }

  // ---------------------------------------------------------------------
  // Part 1: counting paths by a depth-first walk

  /** `dict(entries)`: a later line for the same device replaces an earlier one. */
  function DictOf(entries: seq<Entry>): (graph: map<string, seq<string>>)
    ensures forall k :: 0 <= k < |entries| ==> entries[k].0 in graph
    ensures forall v :: v in graph ==> exists k :: 0 <= k < |entries| && entries[k].0 == v
  {
    if entries == [] then map[]
    else
      var n := |entries| - 1;
      DictOf(entries[..n])[entries[n].0 := entries[n].1]
  }

  /** The graph has no cycle: every edge between two listed devices lowers the rank. */
  ghost predicate Ranked(graph: map<string, seq<string>>, rank: map<string, nat>)
  {
    forall u :: u in graph ==> u in rank && forall k :: 0 <= k < |graph[u]| && graph[u][k] in graph ==>
      graph[u][k] in rank && rank[graph[u][k]] < rank[u]
  }

  /** How deep the walk may still go from v: unlisted devices end it. */
  function Level(graph: map<string, seq<string>>, rank: map<string, nat>, v: string): nat
  {
    if v in graph && v in rank then rank[v] + 1 else 0
  }

  /** The lines below v all have a smaller level. */
  predicate Below(graph: map<string, seq<string>>, rank: map<string, nat>, vs: seq<string>, bound: nat)
  {
    forall k :: 0 <= k < |vs| ==> Level(graph, rank, vs[k]) < bound
  }

  /** Adding two counts, where None (the walk raised) absorbs. */
  function Plus(a: Option<nat>, b: Option<nat>): Option<nat>
  {
    if a.Some? && b.Some? then Some(a.value + b.value) else None
  }

  /**
   * The number of paths from v to `out`, each path ending at the first
   * `out`; None when the walk reaches a device with no line (the program's
   * KeyError).
   */
  ghost function Paths(graph: map<string, seq<string>>, rank: map<string, nat>, v: string): Option<nat>
    requires Ranked(graph, rank)
    decreases Level(graph, rank, v), 1, 0
  {
    if v == "out" then Some(1)
    else if v !in graph then None
    else PathsAll(graph, rank, graph[v], Level(graph, rank, v))
  }

  /** The paths from each of vs, added up. */
  ghost function PathsAll(graph: map<string, seq<string>>, rank: map<string, nat>, vs: seq<string>, bound: nat): Option<nat>
    requires Ranked(graph, rank) && Below(graph, rank, vs, bound)
    decreases bound, 0, |vs|
  {
    if vs == [] then Some(0)
    else
      var n := |vs| - 1;
      Plus(PathsAll(graph, rank, vs[..n], bound), Paths(graph, rank, vs[n]))
  }

  /** The nodes a walk from v pops: v and, unless it ends there, the walks from its successors. */
  ghost function Work(graph: map<string, seq<string>>, rank: map<string, nat>, v: string): nat
    requires Ranked(graph, rank)
    decreases Level(graph, rank, v), 1, 0
  {
    if v == "out" || v !in graph then 1
    else 1 + WorkAll(graph, rank, graph[v], Level(graph, rank, v))
  }

  ghost function WorkAll(graph: map<string, seq<string>>, rank: map<string, nat>, vs: seq<string>, bound: nat): nat
    requires Ranked(graph, rank) && Below(graph, rank, vs, bound)
    decreases bound, 0, |vs|
  {
    if vs == [] then 0
    else
      var n := |vs| - 1;
      WorkAll(graph, rank, vs[..n], bound) + Work(graph, rank, vs[n])
  }

  /** A listed device's successors lie below it. */
  lemma SuccessorsBelow(graph: map<string, seq<string>>, rank: map<string, nat>, v: string)
    requires Ranked(graph, rank) && v in graph
    ensures Below(graph, rank, graph[v], Level(graph, rank, v))
  {
  }

  lemma {:induction false} PathsAllConcat(graph: map<string, seq<string>>, rank: map<string, nat>, a: seq<string>, b: seq<string>, bound: nat)
    requires Ranked(graph, rank) && Below(graph, rank, a, bound) && Below(graph, rank, b, bound)
    ensures Below(graph, rank, a + b, bound)
    ensures PathsAll(graph, rank, a + b, bound) == Plus(PathsAll(graph, rank, a, bound), PathsAll(graph, rank, b, bound))
    decreases |b|
  {
    if b == [] {
      assert a + b == a;
    } else {
      var n := |b| - 1;
      assert (a + b)[..|a| + n] == a + b[..n];
      PathsAllConcat(graph, rank, a, b[..n], bound);
    }
  }

  lemma {:induction false} WorkAllConcat(graph: map<string, seq<string>>, rank: map<string, nat>, a: seq<string>, b: seq<string>, bound: nat)
    requires Ranked(graph, rank) && Below(graph, rank, a, bound) && Below(graph, rank, b, bound)
    ensures Below(graph, rank, a + b, bound)
    ensures WorkAll(graph, rank, a + b, bound) == WorkAll(graph, rank, a, bound) + WorkAll(graph, rank, b, bound)
    decreases |b|
  {
    if b == [] {
      assert a + b == a;
    } else {
      var n := |b| - 1;
      assert (a + b)[..|a| + n] == a + b[..n];
      WorkAllConcat(graph, rank, a, b[..n], bound);
    }
  }

  /** The bound only serves termination. */
  lemma {:induction false} PathsAllBound(graph: map<string, seq<string>>, rank: map<string, nat>, vs: seq<string>, bound: nat, other: nat)
    requires Ranked(graph, rank) && Below(graph, rank, vs, bound) && Below(graph, rank, vs, other)
    ensures PathsAll(graph, rank, vs, bound) == PathsAll(graph, rank, vs, other)
    ensures WorkAll(graph, rank, vs, bound) == WorkAll(graph, rank, vs, other)
  {
    if vs != [] {
      PathsAllBound(graph, rank, vs[..|vs| - 1], bound, other);
    }
  }

  /** `part_1` on the parsed graph: the number of paths from `you` to `out`. */
  ghost function Part1Spec(lines: seq<string>, rank: map<string, nat>): Option<nat>
    requires var e := ParseEntries(lines); e.Some? ==> Ranked(DictOf(e.value), rank)
  {
    var e := ParseEntries(lines);
    if e.None? then None else Paths(DictOf(e.value), rank, "you")
  }

  /** One pop of the walk: `out` is counted, a device without a line raises, any other is replaced by its successors. */
  lemma PopStep(graph: map<string, seq<string>>, rank: map<string, nat>, stack: seq<string>, bound: nat)
    requires Ranked(graph, rank) && Below(graph, rank, stack, bound) && stack != []
    ensures var n := |stack| - 1;
      PathsAll(graph, rank, stack, bound) == Plus(PathsAll(graph, rank, stack[..n], bound), Paths(graph, rank, stack[n])) &&
      WorkAll(graph, rank, stack, bound) == WorkAll(graph, rank, stack[..n], bound) + Work(graph, rank, stack[n])
  {
  }

  lemma Expanded(graph: map<string, seq<string>>, rank: map<string, nat>, rest: seq<string>, v: string, bound: nat)
    requires Ranked(graph, rank) && Below(graph, rank, rest, bound) && Level(graph, rank, v) < bound
    requires v != "out" && v in graph
    ensures Below(graph, rank, rest + graph[v], bound)
    ensures PathsAll(graph, rank, rest + graph[v], bound) == Plus(PathsAll(graph, rank, rest, bound), Paths(graph, rank, v))
    ensures WorkAll(graph, rank, rest + graph[v], bound) + 1 == WorkAll(graph, rank, rest, bound) + Work(graph, rank, v)
  {
    SuccessorsBelow(graph, rank, v);
    PathsAllBound(graph, rank, graph[v], Level(graph, rank, v), bound);
    PathsAllConcat(graph, rank, rest, graph[v], bound);
    WorkAllConcat(graph, rank, rest, graph[v], bound);
  }

  lemma PlusAssoc(a: Option<nat>, b: Option<nat>, c: Option<nat>)
    ensures Plus(Plus(a, b), c) == Plus(a, Plus(b, c))
  {
  }

  /** The walk starts with a stack holding v alone. */
  lemma WalkStart(graph: map<string, seq<string>>, rank: map<string, nat>, v: string)
    requires Ranked(graph, rank)
    ensures Below(graph, rank, [v], Level(graph, rank, v) + 1)
    ensures Paths(graph, rank, v) == Plus(Some(0), PathsAll(graph, rank, [v], Level(graph, rank, v) + 1))
  {
    assert [v][..0] == [];
  }

  /** Counting an `out` moves one path from the stack to the result. */
  lemma CountOut(result: nat, rest: Option<nat>)
    ensures Plus(Plus(Some(result), rest), Some(1)) == Plus(Some(result + 1), rest)
  {
  }

  /** The walk of `part_1` from `you` over a graph without cycles. */
  method Walk(graph: map<string, seq<string>>, ghost rank: map<string, nat>) returns (r: Option<nat>)
    requires Ranked(graph, rank)
    ensures r == Paths(graph, rank, "you")
  {
    var result: nat := 0;
    var stack := ["you"];
    ghost var bound := Level(graph, rank, "you") + 1;
    ghost var total := Paths(graph, rank, "you");
    WalkStart(graph, rank, "you");
    while stack != []
      invariant Below(graph, rank, stack, bound)
      invariant total == Plus(Some(result), PathsAll(graph, rank, stack, bound))
      decreases WorkAll(graph, rank, stack, bound)
    {
      PopStep(graph, rank, stack, bound);
      var n := |stack| - 1;
      var node := stack[n];
      PlusAssoc(Some(result), PathsAll(graph, rank, stack[..n], bound), Paths(graph, rank, node));
      stack := stack[..n];
      if node == "out" {
        CountOut(result, PathsAll(graph, rank, stack, bound));
        result := result + 1;
        continue;
      }
      if node !in graph {
        return None;
      }
      Expanded(graph, rank, stack, node, bound);
      stack := stack + graph[node];
    }
    return Some(result);
  }

  /** `part_1`: read the lines into a dictionary, then walk from `you`. */
  method Part1(lines: seq<string>, ghost rank: map<string, nat>) returns (r: Option<nat>)
    requires var e := ParseEntries(lines); e.Some? ==> Ranked(DictOf(e.value), rank)
    ensures r == Part1Spec(lines, rank)
  {
    var entries := ReadEntries(lines);
    if entries.None? {
      return None;
    }
    r := Walk(DictOf(entries.value), rank);
  }

  // ---------------------------------------------------------------------
  // The example

  const ExampleEntries: seq<Entry> := [
    ("aaa", ["you", "hhh"]), ("you", ["bbb", "ccc"]), ("bbb", ["ddd", "eee"]),
    ("ccc", ["ddd", "eee", "fff"]), ("ddd", ["ggg"]), ("eee", ["out"]), ("fff", ["out"]),
    ("ggg", ["out"]), ("hhh", ["ccc", "fff", "iii"]), ("iii", ["out"])]

  const ExampleGraph: map<string, seq<string>> := map[
    "aaa" := ["you", "hhh"], "you" := ["bbb", "ccc"], "bbb" := ["ddd", "eee"],
    "ccc" := ["ddd", "eee", "fff"], "ddd" := ["ggg"], "eee" := ["out"], "fff" := ["out"],
    "ggg" := ["out"], "hhh" := ["ccc", "fff", "iii"], "iii" := ["out"]]

  /** A ranking every edge of the example lowers: it has no cycle. */
  const ExampleRank: map<string, nat> := map[
    "aaa" := 5, "you" := 4, "hhh" := 4, "bbb" := 3, "ccc" := 3,
    "ddd" := 2, "eee" := 1, "fff" := 1, "ggg" := 1, "iii" := 1]

  /** The example's input file, one line per device. */
  function ExampleInput(): (lines: seq<string>)
    ensures |lines| == 10
  {
    FormatLines(ExampleEntries)
  }

  lemma ExampleSpelled()
    ensures forall k :: 0 <= k < |ExampleEntries| ==> Spelled(ExampleEntries[k])
  {
  }

  /** `dict` over the first n lines: line n - 1 sets its device's outputs over the first n - 1 lines. */
  lemma DictOfPrefix(entries: seq<Entry>, n: nat)
    requires 0 < n <= |entries|
    ensures DictOf(entries[..n]) == DictOf(entries[..n - 1])[entries[n - 1].0 := entries[n - 1].1]
  {
    assert entries[..n][..n - 1] == entries[..n - 1];
  }

  lemma ExampleDict()
    ensures DictOf(ExampleEntries) == ExampleGraph
  {
    var es := ExampleEntries;
    assert DictOf(es[..0]) == map[];
    DictOfPrefix(es, 1);
    DictOfPrefix(es, 2);
    DictOfPrefix(es, 3);
    DictOfPrefix(es, 4);
    DictOfPrefix(es, 5);
    DictOfPrefix(es, 6);
    DictOfPrefix(es, 7);
    DictOfPrefix(es, 8);
    DictOfPrefix(es, 9);
    DictOfPrefix(es, 10);
    assert es[..10] == es;
  }

  lemma ExampleParses()
    ensures ParseEntries(ExampleInput()) == Some(ExampleEntries)
  {
    ExampleSpelled();
    ParseFormatted(ExampleEntries);
  }

  lemma ExampleRanked()
    ensures Ranked(ExampleGraph, ExampleRank)
  {
  }

  /** The paths from a device with a line are the paths from its outputs, added up. */
  lemma PathsThrough(graph: map<string, seq<string>>, rank: map<string, nat>, v: string)
    requires Ranked(graph, rank) && v in graph && v != "out"
    ensures Below(graph, rank, graph[v], Level(graph, rank, v))
    ensures Paths(graph, rank, v) == PathsAll(graph, rank, graph[v], Level(graph, rank, v))
  {
    SuccessorsBelow(graph, rank, v);
  }

  lemma PathsAllSnoc(graph: map<string, seq<string>>, rank: map<string, nat>, vs: seq<string>, w: string, bound: nat)
    requires Ranked(graph, rank) && Below(graph, rank, vs + [w], bound)
    ensures Below(graph, rank, vs, bound)
    ensures PathsAll(graph, rank, vs + [w], bound) == Plus(PathsAll(graph, rank, vs, bound), Paths(graph, rank, w))
  {
    assert forall k :: 0 <= k < |vs| ==> (vs + [w])[k] == vs[k];
    assert (vs + [w])[..|vs|] == vs;
  }

  /** The paths from one, two or three devices. */
  lemma PathsAllUpTo3(graph: map<string, seq<string>>, rank: map<string, nat>, vs: seq<string>, bound: nat)
    requires Ranked(graph, rank) && Below(graph, rank, vs, bound) && 1 <= |vs| <= 3
    ensures |vs| == 1 ==> PathsAll(graph, rank, vs, bound) == Plus(Some(0), Paths(graph, rank, vs[0]))
    ensures |vs| == 2 ==> PathsAll(graph, rank, vs, bound) == Plus(Plus(Some(0), Paths(graph, rank, vs[0])), Paths(graph, rank, vs[1]))
    ensures |vs| == 3 ==> PathsAll(graph, rank, vs, bound) == Plus(Plus(Plus(Some(0), Paths(graph, rank, vs[0])), Paths(graph, rank, vs[1])), Paths(graph, rank, vs[2]))
  {
    var n := |vs| - 1;
    assert vs == vs[..n] + [vs[n]];
    PathsAllSnoc(graph, rank, vs[..n], vs[n], bound);
    if n >= 1 {
      assert vs[..n] == vs[..n - 1] + [vs[n - 1]];
      PathsAllSnoc(graph, rank, vs[..n - 1], vs[n - 1], bound);
      if n >= 2 {
        assert vs[..1] == [] + [vs[0]];
        PathsAllSnoc(graph, rank, [], vs[0], bound);
      } else {
        PathsAllSnoc(graph, rank, [], vs[0], bound);
      }
    } else {
      assert vs[..0] == [];
    }
  }

  /** A device with a line: the paths from it, given the paths from each of its outputs. */
  lemma PathsFrom(graph: map<string, seq<string>>, rank: map<string, nat>, v: string)
    requires Ranked(graph, rank) && v in graph && v != "out" && 1 <= |graph[v]| <= 3
    ensures |graph[v]| == 1 ==> Paths(graph, rank, v) == Plus(Some(0), Paths(graph, rank, graph[v][0]))
    ensures |graph[v]| == 2 ==> Paths(graph, rank, v) == Plus(Plus(Some(0), Paths(graph, rank, graph[v][0])), Paths(graph, rank, graph[v][1]))
    ensures |graph[v]| == 3 ==> Paths(graph, rank, v) == Plus(Plus(Plus(Some(0), Paths(graph, rank, graph[v][0])), Paths(graph, rank, graph[v][1])), Paths(graph, rank, graph[v][2]))
  {
    PathsThrough(graph, rank, v);
    PathsAllUpTo3(graph, rank, graph[v], Level(graph, rank, v));
  }

  /** The example's devices and outputs, as lookups. */
  predicate ExampleShape(graph: map<string, seq<string>>)
  {
    "you" in graph && graph["you"] == ["bbb", "ccc"] &&
    "bbb" in graph && graph["bbb"] == ["ddd", "eee"] &&
    "ccc" in graph && graph["ccc"] == ["ddd", "eee", "fff"] &&
    "ddd" in graph && graph["ddd"] == ["ggg"] &&
    "eee" in graph && graph["eee"] == ["out"] &&
    "fff" in graph && graph["fff"] == ["out"] &&
    "ggg" in graph && graph["ggg"] == ["out"]
  }

  lemma ExampleShaped()
    ensures ExampleShape(ExampleGraph)
  {
  }

  /** Any graph with the example's lines below `you` has five paths from `you` to `out`. */
  lemma PathsOfShape(graph: map<string, seq<string>>, rank: map<string, nat>)
    requires Ranked(graph, rank) && ExampleShape(graph)
    ensures Paths(graph, rank, "you") == Some(5)
  {
    PathsFrom(graph, rank, "ggg");
    PathsFrom(graph, rank, "ddd");
    PathsFrom(graph, rank, "eee");
    PathsFrom(graph, rank, "fff");
    PathsFrom(graph, rank, "bbb");
    PathsFrom(graph, rank, "ccc");
    PathsFrom(graph, rank, "you");
  }

  /** The example has five paths from `you` to `out`. */
  lemma ExamplePaths()
    ensures Ranked(ExampleGraph, ExampleRank)
    ensures Paths(ExampleGraph, ExampleRank, "you") == Some(5)
  {
    ExampleRanked();
    ExampleShaped();
    PathsOfShape(ExampleGraph, ExampleRank);
  }

  /** The example's answer to part 1 is 5. */
  lemma ExamplePart1()
    ensures ParseEntries(ExampleInput()).Some?
    ensures Ranked(DictOf(ParseEntries(ExampleInput()).value), ExampleRank)
    ensures Part1Spec(ExampleInput(), ExampleRank) == Some(5)
  {
    ExampleParses();
    ExampleDict();
    ExamplePaths();
  }
}
