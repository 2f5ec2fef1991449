/**
 * Day 11, part 2: the number of paths from `svr` to `out` that visit both
 * `dac` and `fft`. The program reverses the edges, then finishes devices in
 * reverse topological order: `out` first, and any other device once every
 * one of its outputs is finished (a Kahn-style countdown of the outputs
 * still open). Each device keeps four counts, one per subset of {dac, fft}
 * already seen on the way to it.
 *
 * Unlike part 1, part 2 adds up every line's edges: a device listed twice
 * gets the outputs of both lines.
 */
module Day11Part2 {
  import opened Parsing
  import opened Day11
  import opened Sums

  // ---------------------------------------------------------------------
  // The graph part 2 reads

  /** The devices that have a line. */
  function Sources(entries: seq<Entry>): set<string>
  {
    set k | 0 <= k < |entries| :: entries[k].0
  }

  /** Every output listed for v, over all of v's lines, in line order. */
  function Succ(entries: seq<Entry>, v: string): (r: seq<string>)
    ensures v !in Sources(entries) ==> r == []
  {
    if entries == [] then []
    else
      var n := |entries| - 1;
      assert Sources(entries[..n]) <= Sources(entries) by {
        forall u | u in Sources(entries[..n]) ensures u in Sources(entries) {
          var k :| 0 <= k < n && entries[..n][k].0 == u;
          assert entries[k].0 == u;
        }
      }
      Succ(entries[..n], v) + (if entries[n].0 == v then entries[n].1 else [])
  }

  /** Part 2's graph: each device with a line, mapped to all its outputs. */
  function Adj(entries: seq<Entry>): map<string, seq<string>>
  {
    map v | v in Sources(entries) :: Succ(entries, v)
  }

  /** `graph[w].append(src)` once for every occurrence of w among dsts. */
  function PredIn(src: string, dsts: seq<string>, w: string): seq<string>
  {
    if dsts == [] then []
    else
      var n := |dsts| - 1;
      PredIn(src, dsts[..n], w) + (if dsts[n] == w then [src] else [])
  }

  /** One line reversed: its device, once per listing of w. */
  lemma {:induction false} PredInCount(src: string, dsts: seq<string>, w: string, v: string)
    ensures multiset(PredIn(src, dsts, w))[v] == (if v == src then multiset(dsts)[w] else 0)
  {
    if dsts != [] {
      var n := |dsts| - 1;
      PredInCount(src, dsts[..n], w, v);
      assert dsts == dsts[..n] + [dsts[n]];
    }
  }

  /** The reversed edge list of w: one entry per line and per listing of w on it. */
  function Pred(entries: seq<Entry>, w: string): seq<string>
  {
    if entries == [] then []
    else
      var n := |entries| - 1;
      Pred(entries[..n], w) + PredIn(entries[n].0, entries[n].1, w)
  }

  /** The reversed edges count each edge once: v precedes w as often as w follows v. */
  lemma {:induction false} PredSucc(entries: seq<Entry>, v: string, w: string)
    ensures multiset(Pred(entries, w))[v] == multiset(Succ(entries, v))[w]
  {
    if entries != [] {
      var n := |entries| - 1;
      PredSucc(entries[..n], v, w);
      PredInCount(entries[n].0, entries[n].1, w, v);
    }
  }

  /** Whoever precedes a device has a line, and the device is among its outputs. */
  lemma PredListed(entries: seq<Entry>, w: string)
    ensures forall k :: 0 <= k < |Pred(entries, w)| ==>
      Pred(entries, w)[k] in Adj(entries) && w in Adj(entries)[Pred(entries, w)[k]]
  {
    forall k | 0 <= k < |Pred(entries, w)|
      ensures Pred(entries, w)[k] in Adj(entries) && w in Adj(entries)[Pred(entries, w)[k]]
    {
      var v := Pred(entries, w)[k];
      PredSucc(entries, v, w);
      assert v in multiset(Pred(entries, w));
      assert w in multiset(Succ(entries, v));
    }
  }

  /**
   * What part 2 relies on: no cycle, `out` has no line, every line lists at
   * least one output, and every output is `out` or a device with a line.
   */
  ghost predicate Layered(graph: map<string, seq<string>>, rank: map<string, nat>)
  {
    Ranked(graph, rank) && "out" !in graph &&
    forall v :: v in graph ==> (graph[v] != [] &&
      forall k :: 0 <= k < |graph[v]| ==> graph[v][k] == "out" || graph[v][k] in graph)
  }

  // ---------------------------------------------------------------------
  // Counting paths by the devices they visit

  /** The bit a device adds to the state: 1 for `dac`, 2 for `fft`. */
  function Mask(v: string): (m: nat)
    ensures m < 4
    ensures m == 1 <==> v == "dac"
    ensures m == 2 <==> v == "fft"
    ensures m == 0 <==> v != "dac" && v != "fft"
  {
    if v == "dac" then 1 else if v == "fft" then 1 * 2 else 0
  }

  /** `state | mask` on two-bit values: each bit is set when either side sets it. */
  function Cover(s: nat, m: nat): (r: nat)
    requires s < 4 && m < 4
    ensures s <= r < 4
    ensures r % 2 == 1 <==> s % 2 == 1 || m % 2 == 1
    ensures r / 2 == 1 <==> s / 2 == 1 || m / 2 == 1
  {
    ((s as bv2) | (m as bv2)) as nat
  }

  /**
   * The number of paths from v to `out` that, together with the devices in
   * state s already seen, visit both `dac` and `fft`: `out` itself closes a
   * path exactly when the state is full, a device without a line closes none.
   */
  ghost function Count(graph: map<string, seq<string>>, rank: map<string, nat>, v: string, s: nat): nat
    requires Ranked(graph, rank) && s < 4
    decreases Level(graph, rank, v), 1, 0
  {
    if v == "out" then (if s == 3 then 1 else 0)
    else if v !in graph then 0
    else CountAll(graph, rank, graph[v], Cover(s, Mask(v)), Level(graph, rank, v))
  }

  /** The counts from each of vs, added up. */
  ghost function CountAll(graph: map<string, seq<string>>, rank: map<string, nat>, vs: seq<string>, s: nat, bound: nat): nat
    requires Ranked(graph, rank) && Below(graph, rank, vs, bound) && s < 4
    decreases bound, 0, |vs|
  {
    if vs == [] then 0
    else
      var n := |vs| - 1;
      CountAll(graph, rank, vs[..n], s, bound) + Count(graph, rank, vs[n], s)
  }

  /**
   * With both devices already seen, every path counts: in a graph where
   * every output has a line or is `out`, the full-state count is part 1's
   * number of paths.
   */
  lemma {:induction false} FullCountIsPaths(graph: map<string, seq<string>>, rank: map<string, nat>, v: string)
    requires Layered(graph, rank) && (v == "out" || v in graph)
    ensures Paths(graph, rank, v) == Some(Count(graph, rank, v, 3))
    decreases Level(graph, rank, v), 1
  {
    if v != "out" {
      SuccessorsBelow(graph, rank, v);
      FullCountAll(graph, rank, graph[v], Level(graph, rank, v));
    }
  }

  lemma {:induction false} FullCountAll(graph: map<string, seq<string>>, rank: map<string, nat>, vs: seq<string>, bound: nat)
    requires Layered(graph, rank) && Below(graph, rank, vs, bound)
    requires forall k :: 0 <= k < |vs| ==> vs[k] == "out" || vs[k] in graph
    ensures PathsAll(graph, rank, vs, bound) == Some(CountAll(graph, rank, vs, 3, bound))
    decreases bound, 0, |vs|
  {
    if vs != [] {
      var n := |vs| - 1;
      FullCountAll(graph, rank, vs[..n], bound);
      FullCountIsPaths(graph, rank, vs[n]);
    }
  }

  // ---------------------------------------------------------------------
  // The countdown's bookkeeping

  /** The counts from those of xs already finished (in done), added up. */
  ghost function PartialSum(graph: map<string, seq<string>>, rank: map<string, nat>, xs: seq<string>, done: set<string>, s: nat): nat
    requires Ranked(graph, rank) && s < 4
  {
    if xs == [] then 0
    else
      var n := |xs| - 1;
      PartialSum(graph, rank, xs[..n], done, s) + (if xs[n] in done then Count(graph, rank, xs[n], s) else 0)
  }

  /** How many of xs are not finished yet: what the program's counter of a device holds. */
  function Open(xs: seq<string>, done: set<string>): nat
  {
    if xs == [] then 0
    else
      var n := |xs| - 1;
      Open(xs[..n], done) + (if xs[n] in done then 0 else 1)
  }

  /** Finishing w adds its count once for every time it occurs among xs. */
  lemma {:induction false} FinishOne(graph: map<string, seq<string>>, rank: map<string, nat>, xs: seq<string>, done: set<string>, w: string, s: nat)
    requires Ranked(graph, rank) && s < 4 && w !in done
    ensures PartialSum(graph, rank, xs, done + {w}, s) ==
      PartialSum(graph, rank, xs, done, s) + multiset(xs)[w] * Count(graph, rank, w, s)
  {
    if xs != [] {
      var n := |xs| - 1;
      FinishOne(graph, rank, xs[..n], done, w, s);
      assert xs == xs[..n] + [xs[n]];
      var c := Count(graph, rank, w, s);
      var m := multiset(xs[..n])[w];
      assert multiset(xs)[w] == m + (if xs[n] == w then 1 else 0);
      MoreTimes(m, c);
    }
  }

  lemma MoreTimes(m: nat, c: nat)
    ensures (m + 1) * c == m * c + c
  {
  }

  /** Finishing w closes every occurrence of w among xs, all of which were open. */
  lemma {:induction false} OpenOne(xs: seq<string>, done: set<string>, w: string)
    requires w !in done
    ensures multiset(xs)[w] <= Open(xs, done)
    ensures Open(xs, done + {w}) == Open(xs, done) - multiset(xs)[w]
  {
    if xs != [] {
      var n := |xs| - 1;
      OpenOne(xs[..n], done, w);
      assert xs == xs[..n] + [xs[n]];
    }
  }

  /** Nothing is open exactly when every one of xs is finished. */
  lemma {:induction false} OpenNone(xs: seq<string>, done: set<string>)
    ensures Open(xs, done) == 0 <==> forall k :: 0 <= k < |xs| ==> xs[k] in done
  {
    if xs != [] {
      var n := |xs| - 1;
      OpenNone(xs[..n], done);
      assert forall k :: 0 <= k < n ==> xs[..n][k] == xs[k];
    }
  }

  /** Once every one of xs is finished, the partial sum is the whole count. */
  lemma {:induction false} PartialFull(graph: map<string, seq<string>>, rank: map<string, nat>, xs: seq<string>, done: set<string>, s: nat, bound: nat)
    requires Ranked(graph, rank) && Below(graph, rank, xs, bound) && s < 4
    requires Open(xs, done) == 0
    ensures PartialSum(graph, rank, xs, done, s) == CountAll(graph, rank, xs, s, bound)
  {
    if xs != [] {
      var n := |xs| - 1;
      OpenNone(xs, done);
      OpenNone(xs[..n], done);
      assert forall k :: 0 <= k < n ==> xs[..n][k] == xs[k];
      PartialFull(graph, rank, xs[..n], done, s, bound);
    }
  }

  // ---------------------------------------------------------------------
  // Building the reversed graph

  /** A `defaultdict(list)` read: a missing device has no list. */
  function Lookup(graph: map<string, seq<string>>, w: string): seq<string>
  {
    if w in graph then graph[w] else []
  }

  /** A `Counter` read: a missing device counts 0. */
  function Tally(degrees: map<string, int>, v: string): int
  {
    if v in degrees then degrees[v] else 0
  }

  lemma ConcatAssoc(a: seq<string>, b: seq<string>, c: seq<string>)
    ensures (a + b) + c == a + (b + c)
  {
  }

  /** One edge source -> destinations[j] added, reversed, to a graph holding the edges before it. */
  lemma AddEdge(graph: map<string, seq<string>>, before: map<string, seq<string>>, source: string, destinations: seq<string>, j: nat)
    requires j < |destinations|
    requires forall w :: Lookup(before, w) == Lookup(graph, w) + PredIn(source, destinations[..j], w)
    ensures var d := destinations[j];
      forall w :: Lookup(before[d := Lookup(before, d) + [source]], w) == Lookup(graph, w) + PredIn(source, destinations[..j + 1], w)
  {
    var d := destinations[j];
    var after := before[d := Lookup(before, d) + [source]];
    forall w ensures Lookup(after, w) == Lookup(graph, w) + PredIn(source, destinations[..j + 1], w) {
      assert destinations[..j + 1][..j] == destinations[..j];
      assert PredIn(source, destinations[..j + 1], w) == PredIn(source, destinations[..j], w) + (if d == w then [source] else []);
      var extra: seq<string> := if d == w then [source] else [];
      if w == d {
        assert Lookup(after, w) == Lookup(before, w) + [source];
      } else {
        assert w in after <==> w in before;
        assert Lookup(after, w) == Lookup(before, w);
      }
      ConcatAssoc(Lookup(graph, w), PredIn(source, destinations[..j], w), extra);
    }
  }

  /** One line of the first loop: the device goes onto the reversed list of each output, and its counter up once per output. */
  method AddLine(graph: map<string, seq<string>>, degrees: map<string, int>, source: string, destinations: seq<string>)
    returns (graph': map<string, seq<string>>, degrees': map<string, int>)
    ensures forall w :: Lookup(graph', w) == Lookup(graph, w) + PredIn(source, destinations, w)
    ensures forall v :: Tally(degrees', v) == Tally(degrees, v) + (if v == source then |destinations| else 0)
  {
    graph', degrees' := graph, degrees;
    for j := 0 to |destinations|
      invariant forall w :: Lookup(graph', w) == Lookup(graph, w) + PredIn(source, destinations[..j], w)
      invariant forall v :: Tally(degrees', v) == Tally(degrees, v) + (if v == source then j else 0)
    {
      var d := destinations[j];
      AddEdge(graph, graph', source, destinations, j);
      graph' := graph'[d := Lookup(graph', d) + [source]];
      degrees' := degrees'[source := Tally(degrees', source) + 1];
    }
    assert destinations[..|destinations|] == destinations;
  }

  /**
   * The first loop of `part_2`: every line appends its device to the node
   * list and its edges, reversed, to the graph and the counters.
   */
  method Reverse(entries: seq<Entry>) returns (nodes: seq<string>, graph: map<string, seq<string>>, degrees: map<string, int>)
    ensures |nodes| == |entries| + 1 && nodes[0] == "out"
    ensures forall k :: 0 <= k < |entries| ==> nodes[k + 1] == entries[k].0
    ensures forall w :: Lookup(graph, w) == Pred(entries, w)
    ensures forall v :: Tally(degrees, v) == |Succ(entries, v)|
  {
    nodes, graph, degrees := ["out"], map[], map[];
    for i := 0 to |entries|
      invariant |nodes| == i + 1 && nodes[0] == "out"
      invariant forall k :: 0 <= k < i ==> nodes[k + 1] == entries[k].0
      invariant forall w :: Lookup(graph, w) == Pred(entries[..i], w)
      invariant forall v :: Tally(degrees, v) == |Succ(entries[..i], v)|
    {
      var (source, destinations) := entries[i];
      nodes := nodes + [source];
      assert entries[..i + 1][..i] == entries[..i];
      graph, degrees := AddLine(graph, degrees, source, destinations);
    }
    assert entries[..|entries|] == entries;
  }

  /** `{node: i for i, node in enumerate(nodes)}`: a repeated name keeps its last position. */
  function Positions(nodes: seq<string>): (index: map<string, nat>)
    ensures forall v :: v in index <==> v in nodes
    ensures forall v :: v in index ==> index[v] < |nodes| && nodes[index[v]] == v
    ensures forall k :: 0 <= k < |nodes| ==> index[nodes[k]] >= k
  {
    if nodes == [] then map[]
    else
      var n := |nodes| - 1;
      assert forall k :: 0 <= k < n ==> nodes[..n][k] == nodes[k];
      Positions(nodes[..n])[nodes[n] := n]
  }

  // ---------------------------------------------------------------------
  // The countdown

  /** `for state in range(4): dp[p][state] += dp[q][state | mask]`, one count at a time. */
  method Relax(dp: seq<seq<nat>>, p: nat, q: nat, mask: nat) returns (dp': seq<seq<nat>>)
    requires p < |dp| && q < |dp| && |dp[p]| == 4 && |dp[q]| == 4 && mask < 4
    ensures |dp'| == |dp| && |dp'[p]| == 4
    ensures forall i :: 0 <= i < |dp| && i != p ==> dp'[i] == dp[i]
    ensures forall s :: 0 <= s < 4 ==> dp'[p][s] == dp[p][s] + dp[q][Cover(s, mask)]
  {
    dp' := dp;
    for state := 0 to 4
      invariant |dp'| == |dp| && |dp'[p]| == 4
      invariant forall i :: 0 <= i < |dp| && i != p ==> dp'[i] == dp[i]
      invariant forall s :: 0 <= s < state ==> dp'[p][s] == dp[p][s] + dp[q][Cover(s, mask)]
      invariant forall s :: state <= s < 4 ==> dp'[p][s] == dp[p][s]
    {
      dp' := dp'[p := dp'[p][state := dp'[p][state] + dp'[q][Cover(state, mask)]]];
    }
  }

  /** Every device's position holds a row of four counts. */
  ghost predicate Shaped(index: map<string, nat>, dp: seq<seq<nat>>)
  {
    (forall i :: 0 <= i < |dp| ==> |dp[i]| == 4) && forall v :: v in index ==> index[v] < |dp|
  }

  /** Two devices never share a row. */
  ghost predicate Injective(index: map<string, nat>)
  {
    forall u, v :: u in index && v in index && u != v ==> index[u] != index[v]
  }

  /** The devices with a positive counter. */
  function Active(degrees: map<string, int>): set<string>
  {
    set v | v in degrees && degrees[v] > 0
  }

  /** v's row holds its four counts. */
  ghost predicate Finished(graph: map<string, seq<string>>, rank: map<string, nat>, index: map<string, nat>, dp: seq<seq<nat>>, v: string)
    requires Ranked(graph, rank) && Shaped(index, dp)
  {
    v in index && forall s :: 0 <= s < 4 ==> dp[index[v]][s] == Count(graph, rank, v, s)
  }

  /**
   * v's row holds the counts through its finished outputs plus `seen` times
   * those through w, and its counter the outputs still open less `seen`.
   */
  ghost predicate Pending(graph: map<string, seq<string>>, rank: map<string, nat>, index: map<string, nat>, dp: seq<seq<nat>>,
                          degrees: map<string, int>, done: set<string>, v: string, w: string, seen: nat)
    requires Ranked(graph, rank) && Shaped(index, dp) && v in graph && v in index
  {
    (forall s :: 0 <= s < 4 ==>
      dp[index[v]][s] == PartialSum(graph, rank, graph[v], done, Cover(s, Mask(v))) + seen * Count(graph, rank, w, Cover(s, Mask(v)))) &&
    Tally(degrees, v) == Open(graph[v], done) - seen
  }

  /** v's row holds the counts through its finished outputs, and its counter the outputs still open. */
  ghost predicate Waiting(graph: map<string, seq<string>>, rank: map<string, nat>, index: map<string, nat>, dp: seq<seq<nat>>,
                          degrees: map<string, int>, done: set<string>, v: string)
    requires Ranked(graph, rank) && Shaped(index, dp) && v in graph && v in index
  {
    (forall s :: 0 <= s < 4 ==> dp[index[v]][s] == PartialSum(graph, rank, graph[v], done, Cover(s, Mask(v)))) &&
    Tally(degrees, v) == Open(graph[v], done)
  }

  lemma StartPending(graph: map<string, seq<string>>, rank: map<string, nat>, index: map<string, nat>, dp: seq<seq<nat>>,
                     degrees: map<string, int>, done: set<string>, v: string, w: string)
    requires Ranked(graph, rank) && Shaped(index, dp) && v in graph && v in index
    requires Waiting(graph, rank, index, dp, degrees, done, v)
    ensures Pending(graph, rank, index, dp, degrees, done, v, w, 0)
  {
  }

  /** Once every occurrence of w among v's outputs is added, v waits on one device less. */
  lemma EndPending(graph: map<string, seq<string>>, rank: map<string, nat>, index: map<string, nat>, dp: seq<seq<nat>>,
                   degrees: map<string, int>, done: set<string>, v: string, w: string)
    requires Ranked(graph, rank) && Shaped(index, dp) && v in graph && v in index && w !in done
    requires Pending(graph, rank, index, dp, degrees, done, v, w, multiset(graph[v])[w])
    ensures Waiting(graph, rank, index, dp, degrees, done + {w}, v)
  {
    OpenOne(graph[v], done, w);
    forall s | 0 <= s < 4
      ensures dp[index[v]][s] == PartialSum(graph, rank, graph[v], done + {w}, Cover(s, Mask(v)))
    {
      FinishOne(graph, rank, graph[v], done, w, Cover(s, Mask(v)));
    }
  }

  /** The devices in done are finished, and so are all their outputs; so is `out`. */
  ghost predicate Settled(graph: map<string, seq<string>>, rank: map<string, nat>, index: map<string, nat>, dp: seq<seq<nat>>, done: set<string>)
    requires Ranked(graph, rank) && Shaped(index, dp)
  {
    (forall v :: v in done ==> Finished(graph, rank, index, dp, v)) &&
    Finished(graph, rank, index, dp, "out") &&
    (forall v :: v in graph && v in done ==> Open(graph[v], done) == 0)
  }

  /** Every unfinished device with a line is waiting. */
  ghost predicate AllWaiting(graph: map<string, seq<string>>, rank: map<string, nat>, index: map<string, nat>, dp: seq<seq<nat>>,
                             degrees: map<string, int>, done: set<string>)
    requires Ranked(graph, rank) && Shaped(index, dp) && forall v :: v in graph ==> v in index
  {
    forall v :: v in graph && v !in done ==> Waiting(graph, rank, index, dp, degrees, done, v)
  }

  /** The stack holds unfinished devices with nothing open. */
  ghost predicate Ready(graph: map<string, seq<string>>, done: set<string>, stack: seq<string>)
  {
    forall k :: 0 <= k < |stack| ==>
      (stack[k] !in done && (stack[k] == "out" || (stack[k] in graph && Open(graph[stack[k]], done) == 0)))
  }

  /** Every unfinished device off the stack has something open. */
  ghost predicate Blocked(graph: map<string, seq<string>>, done: set<string>, stack: seq<string>)
  {
    forall v :: v in graph && v !in done && v !in stack ==> Open(graph[v], done) > 0
  }

  /** The main loop's invariant. */
  ghost predicate Countdown(graph: map<string, seq<string>>, rank: map<string, nat>, index: map<string, nat>, dp: seq<seq<nat>>,
                            degrees: map<string, int>, done: set<string>, stack: seq<string>)
    requires Ranked(graph, rank) && Shaped(index, dp) && forall v :: v in graph ==> v in index
  {
    Settled(graph, rank, index, dp, done) && AllWaiting(graph, rank, index, dp, degrees, done) &&
    ("out" in done || "out" in stack) && Ready(graph, done, stack) && Distinct(stack) && Blocked(graph, done, stack)
  }

  /** While w is released, every other unfinished device has had the first j reversed edges added. */
  ghost predicate AllPending(graph: map<string, seq<string>>, rank: map<string, nat>, index: map<string, nat>, dp: seq<seq<nat>>,
                             degrees: map<string, int>, done: set<string>, w: string, preds: seq<string>, j: nat)
    requires Ranked(graph, rank) && Shaped(index, dp) && (forall v :: v in graph ==> v in index) && j <= |preds|
  {
    forall v :: v in graph && v !in done && v != w ==>
      Pending(graph, rank, index, dp, degrees, done, v, w, multiset(preds[..j])[v])
  }

  /** While w is released, the stack holds other unfinished devices whose counter reached 0. */
  ghost predicate Released(graph: map<string, seq<string>>, degrees: map<string, int>, done: set<string>, w: string, stack: seq<string>)
  {
    forall k :: 0 <= k < |stack| ==>
      (stack[k] !in done && stack[k] != w && (stack[k] == "out" || (stack[k] in graph && Tally(degrees, stack[k]) == 0)))
  }

  /** While w is released, every other unfinished device off the stack has a positive counter. */
  ghost predicate Held(graph: map<string, seq<string>>, degrees: map<string, int>, done: set<string>, w: string, stack: seq<string>)
  {
    forall v :: v in graph && v !in done && v != w && v !in stack ==> Tally(degrees, v) > 0
  }

  /** The inner loop's invariant while w is released, after j of its reversed edges preds. */
  ghost predicate Releasing(graph: map<string, seq<string>>, rank: map<string, nat>, index: map<string, nat>, dp: seq<seq<nat>>,
                            degrees: map<string, int>, done: set<string>, w: string, preds: seq<string>, j: nat, stack: seq<string>)
    requires Ranked(graph, rank) && Shaped(index, dp) && (forall v :: v in graph ==> v in index) && j <= |preds|
  {
    Settled(graph, rank, index, dp, done) && Finished(graph, rank, index, dp, w) &&
    AllPending(graph, rank, index, dp, degrees, done, w, preds, j) &&
    ("out" in done || "out" in stack || w == "out") &&
    Released(graph, degrees, done, w, stack) && Distinct(stack) && Held(graph, degrees, done, w, stack)
  }

  /** A device with nothing open is finished: its partial sums are whole. */
  lemma PoppedFinished(graph: map<string, seq<string>>, rank: map<string, nat>, index: map<string, nat>, dp: seq<seq<nat>>,
                       degrees: map<string, int>, done: set<string>, w: string)
    requires Ranked(graph, rank) && Shaped(index, dp) && w in graph && w in index && w != "out"
    requires Waiting(graph, rank, index, dp, degrees, done, w) && Open(graph[w], done) == 0
    ensures Finished(graph, rank, index, dp, w)
  {
    SuccessorsBelow(graph, rank, w);
    forall s | 0 <= s < 4 ensures dp[index[w]][s] == Count(graph, rank, w, s) {
      PartialFull(graph, rank, graph[w], done, Cover(s, Mask(w)), Level(graph, rank, w));
    }
  }

  /** At the start of a release every waiting device is pending with nothing seen. */
  lemma PoppedPending(graph: map<string, seq<string>>, rank: map<string, nat>, index: map<string, nat>, dp: seq<seq<nat>>,
                      degrees: map<string, int>, done: set<string>, w: string, preds: seq<string>)
    requires Ranked(graph, rank) && Shaped(index, dp) && forall v :: v in graph ==> v in index
    requires AllWaiting(graph, rank, index, dp, degrees, done)
    ensures AllPending(graph, rank, index, dp, degrees, done, w, preds, 0)
  {
    assert multiset(preds[..0]) == multiset{};
    forall v | v in graph && v !in done && v != w
      ensures Pending(graph, rank, index, dp, degrees, done, v, w, multiset(preds[..0])[v])
    {
      StartPending(graph, rank, index, dp, degrees, done, v, w);
    }
  }

  /** The rest of the stack after popping w: counters stand for what is open. */
  lemma PoppedStack(graph: map<string, seq<string>>, rank: map<string, nat>, index: map<string, nat>, dp: seq<seq<nat>>,
                    degrees: map<string, int>, done: set<string>, rest: seq<string>, w: string)
    requires Ranked(graph, rank) && Shaped(index, dp) && forall v :: v in graph ==> v in index
    requires AllWaiting(graph, rank, index, dp, degrees, done)
    requires Ready(graph, done, rest + [w]) && Distinct(rest + [w]) && Blocked(graph, done, rest + [w])
    ensures Released(graph, degrees, done, w, rest) && Distinct(rest) && Held(graph, degrees, done, w, rest)
  {
    var stack := rest + [w];
    forall k | 0 <= k < |rest|
      ensures rest[k] !in done && rest[k] != w && (rest[k] == "out" || (rest[k] in graph && Tally(degrees, rest[k]) == 0))
    {
      assert stack[k] == rest[k] && stack[|rest|] == w;
      if rest[k] != "out" {
        assert Waiting(graph, rank, index, dp, degrees, done, rest[k]);
      }
    }
    forall v | v in graph && v !in done && v != w && v !in rest
      ensures Tally(degrees, v) > 0
    {
      assert v !in stack;
      assert Waiting(graph, rank, index, dp, degrees, done, v);
    }
    forall k, l | 0 <= k < l < |rest| ensures rest[k] != rest[l] {
      assert stack[k] == rest[k] && stack[l] == rest[l];
    }
  }

  /** Popping w off the stack: it is finished, and its release can begin. */
  lemma Popped(graph: map<string, seq<string>>, rank: map<string, nat>, index: map<string, nat>, dp: seq<seq<nat>>,
               degrees: map<string, int>, done: set<string>, stack: seq<string>, preds: seq<string>)
    requires Layered(graph, rank) && Shaped(index, dp) && (forall v :: v in graph ==> v in index)
    requires Countdown(graph, rank, index, dp, degrees, done, stack) && stack != []
    ensures var w := stack[|stack| - 1];
      w !in done && (w == "out" || w in graph) && (w in graph ==> Open(graph[w], done) == 0) &&
      Releasing(graph, rank, index, dp, degrees, done, w, preds, 0, stack[..|stack| - 1])
  {
    var n := |stack| - 1;
    var w := stack[n];
    var rest := stack[..n];
    assert stack == rest + [w];
    assert stack[n] == w;
    if w != "out" {
      assert Waiting(graph, rank, index, dp, degrees, done, w);
      PoppedFinished(graph, rank, index, dp, degrees, done, w);
    }
    PoppedPending(graph, rank, index, dp, degrees, done, w, preds);
    PoppedStack(graph, rank, index, dp, degrees, done, rest, w);
  }

  /** degrees' is degrees with v counted down by one. */
  ghost predicate CountedDown(degrees: map<string, int>, degrees': map<string, int>, v: string)
  {
    Tally(degrees', v) == Tally(degrees, v) - 1 && forall u :: u != v ==> Tally(degrees', u) == Tally(degrees, u)
  }

  /** A row the relaxation did not touch keeps its counts. */
  lemma FinishedKept(graph: map<string, seq<string>>, rank: map<string, nat>, index: map<string, nat>, dp: seq<seq<nat>>,
                     dp': seq<seq<nat>>, p: nat, u: string)
    requires Ranked(graph, rank) && Shaped(index, dp) && Shaped(index, dp') && |dp'| == |dp|
    requires forall i :: 0 <= i < |dp| && i != p ==> dp'[i] == dp[i]
    requires Finished(graph, rank, index, dp, u) && index[u] != p
    ensures Finished(graph, rank, index, dp', u)
  {
  }

  /** Rows of other devices than the one relaxed keep their counts. */
  lemma SettledKept(graph: map<string, seq<string>>, rank: map<string, nat>, index: map<string, nat>, dp: seq<seq<nat>>,
                    dp': seq<seq<nat>>, done: set<string>, v: string)
    requires Ranked(graph, rank) && Shaped(index, dp) && Shaped(index, dp') && |dp'| == |dp| && Injective(index)
    requires v in index && v !in done && v != "out"
    requires forall i :: 0 <= i < |dp| && i != index[v] ==> dp'[i] == dp[i]
    requires Settled(graph, rank, index, dp, done)
    ensures Settled(graph, rank, index, dp', done)
  {
    forall u | u in done ensures Finished(graph, rank, index, dp', u) {
      FinishedKept(graph, rank, index, dp, dp', index[v], u);
    }
    FinishedKept(graph, rank, index, dp, dp', index[v], "out");
  }

  /** A prefix one longer holds one more element. */
  lemma PrefixStep(xs: seq<string>, j: nat)
    requires j < |xs|
    ensures multiset(xs[..j + 1]) == multiset(xs[..j]) + multiset{xs[j]}
  {
    assert xs[..j + 1] == xs[..j] + [xs[j]];
  }

  /** A prefix holds no more copies of anything than the whole. */
  lemma PrefixCount(xs: seq<string>, j: nat, v: string)
    requires j <= |xs|
    ensures multiset(xs[..j])[v] <= multiset(xs)[v]
  {
    assert xs == xs[..j] + xs[j..];
  }

  /** An edge leaves a device with a line for another device. */
  lemma EdgeDown(graph: map<string, seq<string>>, rank: map<string, nat>, v: string, w: string)
    requires Layered(graph, rank) && v in graph && w in graph[v]
    ensures v != w && v != "out"
  {
    if w != "out" {
      var k :| 0 <= k < |graph[v]| && graph[v][k] == w;
      assert rank[w] < rank[v];
    }
  }

  /**
   * The device v reached by w's next reversed edge has a line, is not
   * finished, is not w, and its counter is positive.
   */
  lemma StepFacts(graph: map<string, seq<string>>, rank: map<string, nat>, index: map<string, nat>, dp: seq<seq<nat>>,
                  degrees: map<string, int>, done: set<string>, w: string, preds: seq<string>, j: nat)
    requires Layered(graph, rank) && Shaped(index, dp) && (forall v :: v in graph ==> v in index) && j < |preds|
    requires w !in done && (w == "out" || w in graph)
    requires preds[j] in graph && w in graph[preds[j]]
    requires multiset(preds)[preds[j]] == multiset(graph[preds[j]])[w]
    requires Settled(graph, rank, index, dp, done) && AllPending(graph, rank, index, dp, degrees, done, w, preds, j)
    ensures var v := preds[j];
      v !in done && v != w && v != "out" && multiset(preds[..j])[v] < multiset(graph[v])[w] &&
      Tally(degrees, v) >= 1 && Tally(degrees, v) == Open(graph[v], done) - multiset(preds[..j])[v]
  {
    var v := preds[j];
    OpenOne(graph[v], done, w);
    assert w in multiset(graph[v]);
    EdgeDown(graph, rank, v, w);
    PrefixCount(preds, j + 1, v);
    PrefixStep(preds, j);
    assert Pending(graph, rank, index, dp, degrees, done, v, w, multiset(preds[..j])[v]);
  }

  /** Adding one more copy of w's counts to v keeps v pending, with one more seen. */
  lemma StepPending(graph: map<string, seq<string>>, rank: map<string, nat>, index: map<string, nat>, dp: seq<seq<nat>>,
                    degrees: map<string, int>, done: set<string>, w: string, preds: seq<string>, j: nat,
                    dp': seq<seq<nat>>, degrees': map<string, int>)
    requires Ranked(graph, rank) && Shaped(index, dp) && Shaped(index, dp') && |dp'| == |dp| && Injective(index)
    requires (forall v :: v in graph ==> v in index) && j < |preds|
    requires preds[j] in graph && preds[j] !in done && preds[j] != w
    requires Finished(graph, rank, index, dp, w)
    requires AllPending(graph, rank, index, dp, degrees, done, w, preds, j)
    requires forall i :: 0 <= i < |dp| && i != index[preds[j]] ==> dp'[i] == dp[i]
    requires forall s :: 0 <= s < 4 ==>
      dp'[index[preds[j]]][s] == dp[index[preds[j]]][s] + dp[index[w]][Cover(s, Mask(preds[j]))]
    requires CountedDown(degrees, degrees', preds[j])
    ensures AllPending(graph, rank, index, dp', degrees', done, w, preds, j + 1)
  {
    var v := preds[j];
    PrefixStep(preds, j);
    forall u | u in graph && u !in done && u != w
      ensures Pending(graph, rank, index, dp', degrees', done, u, w, multiset(preds[..j + 1])[u])
    {
      assert Pending(graph, rank, index, dp, degrees, done, u, w, multiset(preds[..j])[u]);
      if u == v {
        var seen := multiset(preds[..j])[v];
        forall s | 0 <= s < 4
          ensures dp'[index[v]][s] == PartialSum(graph, rank, graph[v], done, Cover(s, Mask(v))) +
            (seen + 1) * Count(graph, rank, w, Cover(s, Mask(v)))
        {
          MoreTimes(seen, Count(graph, rank, w, Cover(s, Mask(v))));
        }
      } else {
        assert index[u] != index[v];
      }
    }
  }

  /** The stack after w's next reversed edge: v is pushed exactly when its counter reaches 0. */
  lemma StepStack(graph: map<string, seq<string>>, degrees: map<string, int>, done: set<string>, w: string, stack: seq<string>,
                  v: string, degrees': map<string, int>, stack': seq<string>)
    requires v in graph && v !in done && v != w && v != "out" && Tally(degrees, v) >= 1
    requires Released(graph, degrees, done, w, stack) && Distinct(stack) && Held(graph, degrees, done, w, stack)
    requires CountedDown(degrees, degrees', v)
    requires stack' == if Tally(degrees', v) == 0 then stack + [v] else stack
    ensures Released(graph, degrees', done, w, stack') && Distinct(stack') && Held(graph, degrees', done, w, stack')
  {
    assert v !in stack by {
      forall k | 0 <= k < |stack| ensures stack[k] != v {
        assert stack[k] == "out" || Tally(degrees, stack[k]) == 0;
      }
    }
    assert forall k :: 0 <= k < |stack| ==> stack'[k] == stack[k];
  }

  /** After the last reversed edge of w, every device still unfinished waits on one device less. */
  lemma ReleaseEndWaiting(graph: map<string, seq<string>>, rank: map<string, nat>, index: map<string, nat>, dp: seq<seq<nat>>,
                          degrees: map<string, int>, done: set<string>, w: string, preds: seq<string>)
    requires Ranked(graph, rank) && Shaped(index, dp) && forall v :: v in graph ==> v in index
    requires w !in done
    requires forall v :: v in graph ==> multiset(preds)[v] == multiset(graph[v])[w]
    requires AllPending(graph, rank, index, dp, degrees, done, w, preds, |preds|)
    ensures AllWaiting(graph, rank, index, dp, degrees, done + {w})
  {
    assert preds[..|preds|] == preds;
    forall v | v in graph && v !in done + {w} ensures Waiting(graph, rank, index, dp, degrees, done + {w}, v) {
      assert Pending(graph, rank, index, dp, degrees, done, v, w, multiset(preds)[v]);
      EndPending(graph, rank, index, dp, degrees, done, v, w);
    }
  }

  /** After the release, w is finished along with all its outputs. */
  lemma ReleaseEndSettled(graph: map<string, seq<string>>, rank: map<string, nat>, index: map<string, nat>, dp: seq<seq<nat>>,
                          done: set<string>, w: string)
    requires Ranked(graph, rank) && Shaped(index, dp)
    requires w !in done && (w in graph ==> Open(graph[w], done) == 0)
    requires Settled(graph, rank, index, dp, done) && Finished(graph, rank, index, dp, w)
    ensures Settled(graph, rank, index, dp, done + {w})
  {
    forall v | v in graph && v in done + {w} ensures Open(graph[v], done + {w}) == 0 {
      assert Open(graph[v], done) == 0;
      OpenOne(graph[v], done, w);
    }
  }

  /** After the last reversed edge of w, w joins done and the main loop's invariant holds again. */
  lemma ReleaseEnd(graph: map<string, seq<string>>, rank: map<string, nat>, index: map<string, nat>, dp: seq<seq<nat>>,
                   degrees: map<string, int>, done: set<string>, w: string, preds: seq<string>, stack: seq<string>)
    requires Ranked(graph, rank) && Shaped(index, dp) && forall v :: v in graph ==> v in index
    requires w !in done && (w in graph ==> Open(graph[w], done) == 0)
    requires forall v :: v in graph ==> multiset(preds)[v] == multiset(graph[v])[w]
    requires Releasing(graph, rank, index, dp, degrees, done, w, preds, |preds|, stack)
    ensures Countdown(graph, rank, index, dp, degrees, done + {w}, stack)
  {
    var done' := done + {w};
    ReleaseEndWaiting(graph, rank, index, dp, degrees, done, w, preds);
    ReleaseEndSettled(graph, rank, index, dp, done, w);
    forall k | 0 <= k < |stack| && stack[k] != "out" ensures Open(graph[stack[k]], done') == 0 {
      assert Waiting(graph, rank, index, dp, degrees, done', stack[k]);
    }
    forall v | v in graph && v !in done' && v !in stack ensures Open(graph[v], done') > 0 {
      assert Waiting(graph, rank, index, dp, degrees, done', v);
    }
  }

  /** A device's counts with nothing finished: none, and every output open. */
  lemma {:induction false} NothingDone(graph: map<string, seq<string>>, rank: map<string, nat>, xs: seq<string>, s: nat)
    requires Ranked(graph, rank) && s < 4
    ensures PartialSum(graph, rank, xs, {}, s) == 0 && Open(xs, {}) == |xs|
  {
    if xs != [] {
      NothingDone(graph, rank, xs[..|xs| - 1], s);
    }
  }

  /** Before the main loop: only `out` has its counts, and it is on the stack. */
  lemma Started(graph: map<string, seq<string>>, rank: map<string, nat>, index: map<string, nat>, dp: seq<seq<nat>>,
                degrees: map<string, int>)
    requires Layered(graph, rank) && Shaped(index, dp) && (forall v :: v in graph ==> v in index) && "out" in index
    requires forall v :: v in graph ==> Tally(degrees, v) == |graph[v]|
    requires forall v, s :: v in index && 0 <= s < 4 ==> dp[index[v]][s] == (if v == "out" && s == 3 then 1 else 0)
    ensures Countdown(graph, rank, index, dp, degrees, {}, ["out"])
  {
    forall v | v in graph ensures Waiting(graph, rank, index, dp, degrees, {}, v) {
      forall s | 0 <= s < 4 ensures dp[index[v]][s] == PartialSum(graph, rank, graph[v], {}, Cover(s, Mask(v))) {
        NothingDone(graph, rank, graph[v], Cover(s, Mask(v)));
      }
      NothingDone(graph, rank, graph[v], 0);
    }
    forall v | v in graph && v !in ["out"] ensures Open(graph[v], {}) > 0 {
      NothingDone(graph, rank, graph[v], 0);
    }
  }

  /** With the stack empty, every device is finished: the lowest unfinished one would have nothing open. */
  lemma {:induction false} Drained(graph: map<string, seq<string>>, rank: map<string, nat>, index: map<string, nat>, dp: seq<seq<nat>>,
                                   degrees: map<string, int>, done: set<string>, v: string)
    requires Layered(graph, rank) && Shaped(index, dp) && (forall v :: v in graph ==> v in index)
    requires Countdown(graph, rank, index, dp, degrees, done, []) && v in graph
    ensures v in done
    decreases rank[v]
  {
    forall k | 0 <= k < |graph[v]| ensures graph[v][k] in done {
      var x := graph[v][k];
      if x != "out" {
        Drained(graph, rank, index, dp, degrees, done, x);
      }
    }
    OpenNone(graph[v], done);
  }

  /** preds are w's reversed edges: each comes from a device listing w, as often as it lists it. */
  ghost predicate Feeds(graph: map<string, seq<string>>, w: string, preds: seq<string>)
  {
    (forall k :: 0 <= k < |preds| ==> preds[k] in graph && w in graph[preds[k]]) &&
    forall v :: v in graph ==> multiset(preds)[v] == multiset(graph[v])[w]
  }

  /** What a release of w relies on when the graph is layered. */
  ghost predicate Context(graph: map<string, seq<string>>, rank: map<string, nat>, index: map<string, nat>,
                          done: set<string>, w: string, preds: seq<string>)
  {
    Layered(graph, rank) && (forall v :: v in graph ==> v in index) && Injective(index) &&
    w in index && w !in done && (w == "out" || w in graph) && Feeds(graph, w, preds)
  }

  /** One step of the inner loop keeps its invariant. */
  lemma ReleaseStep(graph: map<string, seq<string>>, rank: map<string, nat>, index: map<string, nat>, dp: seq<seq<nat>>,
                    degrees: map<string, int>, done: set<string>, w: string, preds: seq<string>, j: nat, stack: seq<string>,
                    dp': seq<seq<nat>>, degrees': map<string, int>, stack': seq<string>)
    requires Context(graph, rank, index, done, w, preds) && Shaped(index, dp) && j < |preds|
    requires Releasing(graph, rank, index, dp, degrees, done, w, preds, j, stack)
    requires Shaped(index, dp') && |dp'| == |dp|
    requires forall i :: 0 <= i < |dp| && i != index[preds[j]] ==> dp'[i] == dp[i]
    requires forall s :: 0 <= s < 4 ==>
      dp'[index[preds[j]]][s] == dp[index[preds[j]]][s] + dp[index[w]][Cover(s, Mask(preds[j]))]
    requires CountedDown(degrees, degrees', preds[j])
    requires stack' == if Tally(degrees', preds[j]) == 0 then stack + [preds[j]] else stack
    ensures Releasing(graph, rank, index, dp', degrees', done, w, preds, j + 1, stack')
  {
    StepFacts(graph, rank, index, dp, degrees, done, w, preds, j);
    SettledKept(graph, rank, index, dp, dp', done, preds[j]);
    FinishedKept(graph, rank, index, dp, dp', index[preds[j]], w);
    StepPending(graph, rank, index, dp, degrees, done, w, preds, j, dp', degrees');
    StepStack(graph, degrees, done, w, stack, preds[j], degrees', stack');
  }

  /** Counting v down by one drops it from the positive counters exactly when it was at 1. */
  lemma ActiveStep(degrees: map<string, int>, v: string)
    ensures |Active(degrees[v := Tally(degrees, v) - 1])| == |Active(degrees)| - (if Tally(degrees, v) == 1 then 1 else 0)
  {
    var after := Active(degrees[v := Tally(degrees, v) - 1]);
    if Tally(degrees, v) == 1 {
      assert after == Active(degrees) - {v};
    } else {
      assert after == Active(degrees);
    }
  }

  /**
   * One turn of the inner loop: the device prev feeding w gets w's counts
   * shifted by its own bit, its counter goes down by one, and it is pushed
   * when the counter reaches 0.
   */
  method Feed(index: map<string, nat>, w: string, prev: string, dp: seq<seq<nat>>, degrees: map<string, int>, stack: seq<string>,
              ghost graph: map<string, seq<string>>, ghost rank: map<string, nat>, ghost done: set<string>,
              ghost preds: seq<string>, ghost j: nat)
    returns (dp': seq<seq<nat>>, degrees': map<string, int>, stack': seq<string>)
    requires Shaped(index, dp) && w in index && prev in index
    requires forall k :: 0 <= k < |stack| ==> stack[k] in index
    requires j < |preds| && preds[j] == prev
    requires (Context(graph, rank, index, done, w, preds) ==> Releasing(graph, rank, index, dp, degrees, done, w, preds, j, stack)) == true
    ensures Shaped(index, dp') && |dp'| == |dp|
    ensures forall k :: 0 <= k < |stack'| ==> stack'[k] in index
    ensures |Active(degrees')| + |stack'| == |Active(degrees)| + |stack|
    ensures (Context(graph, rank, index, done, w, preds) ==> Releasing(graph, rank, index, dp', degrees', done, w, preds, j + 1, stack')) == true
  {
    var mask := Mask(prev);
    dp' := Relax(dp, index[prev], index[w], mask);
    var count := Tally(degrees, prev) - 1;
    ActiveStep(degrees, prev);
    degrees' := degrees[prev := count];
    assert CountedDown(degrees, degrees', prev);
    stack' := if count == 0 then stack + [prev] else stack;
    if Context(graph, rank, index, done, w, preds) {
      ReleaseStep(graph, rank, index, dp, degrees, done, w, preds, j, stack, dp', degrees', stack');
    }
  }

  /**
   * The inner loop of `part_2`: for each device feeding w, add w's counts
   * shifted by the device's own bit, count its open outputs down by one,
   * and push it when the count reaches 0.
   */
  method Release(index: map<string, nat>, w: string, preds: seq<string>,
                 dp: seq<seq<nat>>, degrees: map<string, int>, stack: seq<string>,
                 ghost graph: map<string, seq<string>>, ghost rank: map<string, nat>, ghost done: set<string>)
    returns (dp': seq<seq<nat>>, degrees': map<string, int>, stack': seq<string>)
    requires Shaped(index, dp) && w in index
    requires forall k :: 0 <= k < |preds| ==> preds[k] in index
    requires forall k :: 0 <= k < |stack| ==> stack[k] in index
    requires (Context(graph, rank, index, done, w, preds) ==> Releasing(graph, rank, index, dp, degrees, done, w, preds, 0, stack)) == true
    ensures Shaped(index, dp') && |dp'| == |dp|
    ensures forall k :: 0 <= k < |stack'| ==> stack'[k] in index
    ensures |Active(degrees')| + |stack'| == |Active(degrees)| + |stack|
    ensures (Context(graph, rank, index, done, w, preds) ==> Releasing(graph, rank, index, dp', degrees', done, w, preds, |preds|, stack')) == true
  {
    dp', degrees', stack' := dp, degrees, stack;
    for j := 0 to |preds|
      invariant Shaped(index, dp') && |dp'| == |dp|
      invariant forall k :: 0 <= k < |stack'| ==> stack'[k] in index
      invariant |Active(degrees')| + |stack'| == |Active(degrees)| + |stack|
      invariant (Context(graph, rank, index, done, w, preds) ==> Releasing(graph, rank, index, dp', degrees', done, w, preds, j, stack')) == true
    {
      dp', degrees', stack' := Feed(index, w, preds[j], dp', degrees', stack', graph, rank, done, preds, j);
    }
  }

  /**
   * The main loop of `part_2`: pop a device, release it to the devices
   * feeding it, until the stack is empty. In a layered graph every row then
   * holds its device's counts.
   */
  method Drain(reversed: map<string, seq<string>>, index: map<string, nat>, dp: seq<seq<nat>>, degrees: map<string, int>,
               ghost entries: seq<Entry>, ghost rank: map<string, nat>)
    returns (table: seq<seq<nat>>)
    requires Shaped(index, dp) && "out" in index && Injective(index)
    requires forall v :: v in index <==> v == "out" || v in Sources(entries)
    requires forall w :: Lookup(reversed, w) == Pred(entries, w)
    requires forall v :: Tally(degrees, v) == |Succ(entries, v)|
    requires forall v, s :: v in index && 0 <= s < 4 ==> dp[index[v]][s] == (if v == "out" && s == 3 then 1 else 0)
    ensures Shaped(index, table) && |table| == |dp|
    ensures Layered(Adj(entries), rank) ==> forall v :: v in index ==> Finished(Adj(entries), rank, index, table, v)
  {
    ghost var graph := Adj(entries);
    ghost var done: set<string> := {};
    table := dp;
    var counters := degrees;
    var stack := ["out"];
    if Layered(graph, rank) {
      Started(graph, rank, index, table, counters);
    }
    while stack != []
      invariant Shaped(index, table) && |table| == |dp|
      invariant forall k :: 0 <= k < |stack| ==> stack[k] in index
      // on a layered graph, the counters, table and stack keep the countdown's meaning
      invariant (Layered(graph, rank) ==> Countdown(graph, rank, index, table, counters, done, stack)) == true
      decreases |Active(counters)| + |stack|
    {
      var n := |stack| - 1;
      var node := stack[n];
      var preds := Lookup(reversed, node);
      PredListed(entries, node);
      if Layered(graph, rank) {
        Popped(graph, rank, index, table, counters, done, stack, preds);
        forall v | v in graph ensures multiset(preds)[v] == multiset(graph[v])[node] {
          PredSucc(entries, v, node);
        }
        assert Context(graph, rank, index, done, node, preds);
      }
      stack := stack[..n];
      table, counters, stack := Release(index, node, preds, table, counters, stack, graph, rank, done);
      if Layered(graph, rank) {
        ReleaseEnd(graph, rank, index, table, counters, done, node, preds, stack);
      }
      done := done + {node};
    }
    if Layered(graph, rank) {
      forall v | v in graph ensures v in done {
        Drained(graph, rank, index, table, counters, done, v);
      }
    }
  }

  /** The node list names `out` and every device with a line, nothing else. */
  lemma NodesListed(entries: seq<Entry>, nodes: seq<string>)
    requires |nodes| == |entries| + 1 && nodes[0] == "out"
    requires forall k :: 0 <= k < |entries| ==> nodes[k + 1] == entries[k].0
    ensures forall v :: v in nodes <==> v == "out" || v in Sources(entries)
  {
    forall v ensures v in nodes <==> v == "out" || v in Sources(entries) {
      if v in Sources(entries) {
        var k :| 0 <= k < |entries| && entries[k].0 == v;
        assert nodes[k + 1] == v;
      }
      if v in nodes {
        var i :| 0 <= i < |nodes| && nodes[i] == v;
        if i > 0 {
          assert entries[i - 1].0 == v;
        }
      }
    }
  }

  /**
   * Everything `part_2` sets up before its main loop: the reversed graph,
   * the counters, the positions and the rows, with only `out`'s full-state
   * count at 1.
   */
  method Setup(entries: seq<Entry>)
    returns (reversed: map<string, seq<string>>, index: map<string, nat>, dp: seq<seq<nat>>, degrees: map<string, int>)
    ensures Shaped(index, dp) && "out" in index && Injective(index)
    ensures forall v :: v in index <==> v == "out" || v in Sources(entries)
    ensures forall w :: Lookup(reversed, w) == Pred(entries, w)
    ensures forall v :: Tally(degrees, v) == |Succ(entries, v)|
    ensures forall v, s :: v in index && 0 <= s < 4 ==> dp[index[v]][s] == (if v == "out" && s == 3 then 1 else 0)
  {
    var nodes;
    nodes, reversed, degrees := Reverse(entries);
    index := Positions(nodes);
    NodesListed(entries, nodes);
    dp := seq(|nodes|, _ => [0, 0, 0, 0]);
    var out := index["out"];
    dp := dp[out := dp[out][3 := 1]];
  }

  /**
   * `part_2`: the paths from `svr` to `out` through both `dac` and `fft`;
   * None when a line does not parse or `svr` has no line (the program's
   * KeyError).
   */
  method Part2(lines: seq<string>, ghost rank: map<string, nat>) returns (r: Option<nat>)
    ensures ParseEntries(lines).None? ==> r.None?
    ensures ParseEntries(lines).Some? ==> (r.Some? <==> "svr" in Sources(ParseEntries(lines).value))
    ensures ParseEntries(lines).Some? && Layered(Adj(ParseEntries(lines).value), rank) && r.Some? ==>
      r.value == Count(Adj(ParseEntries(lines).value), rank, "svr", 0)
  {
    var parsed := ReadEntries(lines);
    if parsed.None? {
      return None;
    }
    var entries := parsed.value;
    var reversed, index, dp, degrees := Setup(entries);
    dp := Drain(reversed, index, dp, degrees, entries, rank);
    if "svr" !in index {
      return None;
    }
    return Some(dp[index["svr"]][0]);
  }

  // ---------------------------------------------------------------------
  // One line per device, and the example

  /** Keys of distinct lines: no device has two lines. */
  predicate OneLineEach(entries: seq<Entry>)
  {
    forall i, j :: 0 <= i < j < |entries| ==> entries[i].0 != entries[j].0
  }

  lemma {:induction false} SuccOneLine(entries: seq<Entry>, k: nat)
    requires k < |entries| && OneLineEach(entries)
    ensures Succ(entries, entries[k].0) == entries[k].1
  {
    var n := |entries| - 1;
    var prefix := entries[..n];
    if k < n {
      assert prefix[k] == entries[k];
      SuccOneLine(prefix, k);
    } else {
      assert entries[n].0 !in Sources(prefix);
    }
  }

  lemma {:induction false} DictOneLine(entries: seq<Entry>, k: nat)
    requires k < |entries| && OneLineEach(entries)
    ensures DictOf(entries)[entries[k].0] == entries[k].1
  {
    var n := |entries| - 1;
    if k < n {
      var prefix := entries[..n];
      assert prefix[k] == entries[k];
      DictOneLine(prefix, k);
    }
  }

  /** With one line per device, part 2's graph is the `dict` part 1 reads. */
  lemma AdjIsDict(entries: seq<Entry>)
    requires OneLineEach(entries)
    ensures Adj(entries) == DictOf(entries)
  {
    var a, d := Adj(entries), DictOf(entries);
    forall v | v in a
      ensures v in d && a[v] == d[v]
    {
      var k :| 0 <= k < |entries| && entries[k].0 == v;
      SuccOneLine(entries, k);
      DictOneLine(entries, k);
    }
    forall v | v in d
      ensures v in a
    {
      var k :| 0 <= k < |entries| && entries[k].0 == v;
      assert v in Sources(entries);
    }
  }

  const ExampleEntries2: seq<Entry> := [
    ("svr", ["aaa", "bbb"]), ("aaa", ["fft"]), ("fft", ["ccc"]), ("bbb", ["tty"]),
    ("tty", ["ccc"]), ("ccc", ["ddd", "eee"]), ("ddd", ["hub"]), ("hub", ["fff"]),
    ("eee", ["dac"]), ("dac", ["fff"]), ("fff", ["ggg", "hhh"]), ("ggg", ["out"]), ("hhh", ["out"])]

  const ExampleGraph2: map<string, seq<string>> := map[
    "svr" := ["aaa", "bbb"], "aaa" := ["fft"], "fft" := ["ccc"], "bbb" := ["tty"],
    "tty" := ["ccc"], "ccc" := ["ddd", "eee"], "ddd" := ["hub"], "hub" := ["fff"],
    "eee" := ["dac"], "dac" := ["fff"], "fff" := ["ggg", "hhh"], "ggg" := ["out"], "hhh" := ["out"]]

  /** A ranking every edge of the second example lowers. */
  const ExampleRank2: map<string, nat> := map[
    "ggg" := 1, "hhh" := 1, "fff" := 2, "hub" := 3, "dac" := 3, "ddd" := 4, "eee" := 4,
    "ccc" := 5, "fft" := 6, "tty" := 6, "aaa" := 7, "bbb" := 7, "svr" := 8]

  /** The second example's input file, one line per device. */
  function ExampleInput2(): (lines: seq<string>)
    ensures |lines| == 13
  {
    FormatLines(ExampleEntries2)
  }

  lemma ExampleParses2()
    ensures ParseEntries(ExampleInput2()) == Some(ExampleEntries2)
    ensures "svr" in Sources(ExampleEntries2)
  {
    assert forall k :: 0 <= k < |ExampleEntries2| ==> Spelled(ExampleEntries2[k]);
    ParseFormatted(ExampleEntries2);
    assert ExampleEntries2[0].0 == "svr";
  }

  /**
   * A `dict` over lines with distinct devices is the map that sends each
   * line's device to its outputs and holds nothing else.
   */
  lemma {:induction false} DictIsMap(entries: seq<Entry>, graph: map<string, seq<string>>)
    requires OneLineEach(entries)
    requires forall k :: 0 <= k < |entries| ==> entries[k].0 in graph && graph[entries[k].0] == entries[k].1
    requires forall v :: v in graph ==> exists k :: 0 <= k < |entries| && entries[k].0 == v
    ensures DictOf(entries) == graph
  {
    var d := DictOf(entries);
    assert forall v :: v in d ==> v in graph && d[v] == graph[v] by {
      forall v | v in d
        ensures v in graph && d[v] == graph[v]
      {
        var k :| 0 <= k < |entries| && entries[k].0 == v;
        DictOneLine(entries, k);
      }
    }
    assert d.Keys == graph.Keys;
  }

  lemma ExampleLookups2()
    ensures forall k :: 0 <= k < |ExampleEntries2| ==>
      ExampleEntries2[k].0 in ExampleGraph2 && ExampleGraph2[ExampleEntries2[k].0] == ExampleEntries2[k].1
  {
  }

  lemma ExampleListed2()
    ensures forall v :: v in ExampleGraph2 ==> exists k :: 0 <= k < |ExampleEntries2| && ExampleEntries2[k].0 == v
  {
    var es := ExampleEntries2;
    forall v | v in ExampleGraph2
      ensures exists k :: 0 <= k < |es| && es[k].0 == v
    {
      var k := if v == "svr" then 0 else if v == "aaa" then 1 else if v == "fft" then 2
        else if v == "bbb" then 3 else if v == "tty" then 4 else if v == "ccc" then 5
        else if v == "ddd" then 6 else if v == "hub" then 7 else if v == "eee" then 8
        else if v == "dac" then 9 else if v == "fff" then 10 else if v == "ggg" then 11 else 12;
      assert es[k].0 == v;
    }
  }

  /** The second example's graph, read either way, is the literal map above. */
  lemma ExampleAdj2()
    ensures DictOf(ExampleEntries2) == ExampleGraph2
    ensures Adj(ExampleEntries2) == ExampleGraph2
  {
    assert OneLineEach(ExampleEntries2);
    ExampleLookups2();
    ExampleListed2();
    DictIsMap(ExampleEntries2, ExampleGraph2);
    AdjIsDict(ExampleEntries2);
  }

  /** One device's side of `Ranked`: it has a rank, above that of each of its outputs with a line. */
  ghost predicate RankedAt(graph: map<string, seq<string>>, rank: map<string, nat>, u: string)
    requires u in graph
  {
    u in rank && forall k :: 0 <= k < |graph[u]| && graph[u][k] in graph ==> graph[u][k] in rank && rank[graph[u][k]] < rank[u]
  }

  lemma ExampleRankedUpper2(u: string)
    requires u in {"svr", "aaa", "fft", "bbb", "tty", "ccc"}
    ensures u in ExampleGraph2 && RankedAt(ExampleGraph2, ExampleRank2, u)
  {
  }

  lemma ExampleRankedLower2(u: string)
    requires u in {"ddd", "hub", "eee", "dac", "fff", "ggg", "hhh"}
    ensures u in ExampleGraph2 && RankedAt(ExampleGraph2, ExampleRank2, u)
  {
  }

  lemma ExampleLayered2()
    ensures Layered(ExampleGraph2, ExampleRank2)
  {
    var g := ExampleGraph2;
    forall u | u in g
      ensures RankedAt(g, ExampleRank2, u)
    {
      if u in {"svr", "aaa", "fft", "bbb", "tty", "ccc"} {
        ExampleRankedUpper2(u);
      } else {
        ExampleRankedLower2(u);
      }
    }
    ExampleClosed2();
  }

  lemma ExampleClosed2()
    ensures forall v :: v in ExampleGraph2 ==> (ExampleGraph2[v] != [] &&
      forall k :: 0 <= k < |ExampleGraph2[v]| ==> ExampleGraph2[v][k] == "out" || ExampleGraph2[v][k] in ExampleGraph2)
  {
  }

  /** A device with a line and one or two outputs: its count, given those of its outputs. */
  lemma CountFrom(graph: map<string, seq<string>>, rank: map<string, nat>, v: string, s: nat)
    requires Ranked(graph, rank) && v in graph && v != "out" && 1 <= |graph[v]| <= 2 && s < 4
    ensures var t := Cover(s, Mask(v));
      |graph[v]| == 1 ==> Count(graph, rank, v, s) == Count(graph, rank, graph[v][0], t)
    ensures var t := Cover(s, Mask(v));
      |graph[v]| == 2 ==> Count(graph, rank, v, s) == Count(graph, rank, graph[v][0], t) + Count(graph, rank, graph[v][1], t)
  {
    var vs, t, bound := graph[v], Cover(s, Mask(v)), Level(graph, rank, v);
    SuccessorsBelow(graph, rank, v);
    assert Count(graph, rank, v, s) == CountAll(graph, rank, vs, t, bound);
    assert vs[..1][..0] == [] && vs[..1][0] == vs[0];
    assert CountAll(graph, rank, vs[..1], t, bound) == Count(graph, rank, vs[0], t);
    if |vs| == 1 {
      assert vs[..1] == vs;
    } else {
      assert CountAll(graph, rank, vs, t, bound) == CountAll(graph, rank, vs[..1], t, bound) + Count(graph, rank, vs[1], t);
    }
  }

  /** The second example's lines, as lookups. */
  predicate ExampleShape2(graph: map<string, seq<string>>)
  {
    "svr" in graph && graph["svr"] == ["aaa", "bbb"] &&
    "aaa" in graph && graph["aaa"] == ["fft"] &&
    "fft" in graph && graph["fft"] == ["ccc"] &&
    "bbb" in graph && graph["bbb"] == ["tty"] &&
    "tty" in graph && graph["tty"] == ["ccc"] &&
    "ccc" in graph && graph["ccc"] == ["ddd", "eee"] &&
    "ddd" in graph && graph["ddd"] == ["hub"] &&
    "hub" in graph && graph["hub"] == ["fff"] &&
    "eee" in graph && graph["eee"] == ["dac"] &&
    "dac" in graph && graph["dac"] == ["fff"] &&
    "fff" in graph && graph["fff"] == ["ggg", "hhh"] &&
    "ggg" in graph && graph["ggg"] == ["out"] &&
    "hhh" in graph && graph["hhh"] == ["out"]
  }

  /**
   * Any graph with the second example's lines has two paths from `svr` to
   * `out` through both `dac` and `fft`: through `fft`, then either side of
   * `ccc`, only the `eee`-`dac` side sees `dac`, and `fff` has two ways out.
   */
  lemma CountOfShape2(graph: map<string, seq<string>>, rank: map<string, nat>)
    requires Ranked(graph, rank) && ExampleShape2(graph)
    ensures Count(graph, rank, "svr", 0) == 2
  {
    CountCccOfShape2(graph, rank);
    assert Mask("fft") == 2 && Cover(0, 2) == 2;
    CountFrom(graph, rank, "fft", 0);
    CountFrom(graph, rank, "aaa", 0);
    CountFrom(graph, rank, "tty", 0);
    CountFrom(graph, rank, "bbb", 0);
    CountFrom(graph, rank, "svr", 0);
  }

  /** Below `ccc`: only the `eee`-`dac` side sees `dac`, so only with `fft` already seen do paths count. */
  lemma CountCccOfShape2(graph: map<string, seq<string>>, rank: map<string, nat>)
    requires Ranked(graph, rank) && ExampleShape2(graph)
    ensures Count(graph, rank, "ccc", 0) == 0
    ensures Count(graph, rank, "ccc", 2) == 2
  {
    CountFffOfShape2(graph, rank);
    assert Mask("dac") == 1 && Cover(2, 1) == 3 && Cover(0, 1) == 1;
    CountFrom(graph, rank, "hub", 0);
    CountFrom(graph, rank, "hub", 2);
    CountFrom(graph, rank, "ddd", 0);
    CountFrom(graph, rank, "ddd", 2);
    CountFrom(graph, rank, "dac", 0);
    CountFrom(graph, rank, "dac", 2);
    CountFrom(graph, rank, "eee", 0);
    CountFrom(graph, rank, "eee", 2);
    CountFrom(graph, rank, "ccc", 0);
    CountFrom(graph, rank, "ccc", 2);
  }

  /** From `fff`, two ways out, which count only once both devices have been seen. */
  lemma CountFffOfShape2(graph: map<string, seq<string>>, rank: map<string, nat>)
    requires Ranked(graph, rank) && ExampleShape2(graph)
    ensures forall s :: 0 <= s < 3 ==> Count(graph, rank, "fff", s) == 0
    ensures Count(graph, rank, "fff", 3) == 2
  {
    forall s | 0 <= s < 4
      ensures Count(graph, rank, "fff", s) == if s == 3 then 2 else 0
    {
      CountFrom(graph, rank, "ggg", s);
      CountFrom(graph, rank, "hhh", s);
      CountFrom(graph, rank, "fff", s);
    }
  }

  lemma ExampleShaped2()
    ensures ExampleShape2(ExampleGraph2)
  {
  }

  /** The second example parses, is layered, and its answer to part 2 is 2. */
  lemma ExamplePart2()
    ensures ParseEntries(ExampleInput2()) == Some(ExampleEntries2)
    ensures "svr" in Sources(ExampleEntries2)
    ensures Layered(Adj(ExampleEntries2), ExampleRank2)
    ensures Count(Adj(ExampleEntries2), ExampleRank2, "svr", 0) == 2
  {
    ExampleParses2();
    ExampleAdj2();
    ExampleLayered2();
    ExampleShaped2();
    CountOfShape2(ExampleGraph2, ExampleRank2);
  }

  /** `part_2` on the second example returns 2. */
  method ExampleAnswer2() returns (r: Option<nat>)
    ensures r == Some(2)
  {
    ExamplePart2();
    r := Part2(ExampleInput2(), ExampleRank2);
  }
}
