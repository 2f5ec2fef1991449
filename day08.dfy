/**
 * Day 8: junction boxes in 3-D space are wired together, closest pairs
 * first, with a union-find structure tracking the circuits. Part 1 wires a
 * fixed number of the closest pairs and multiplies the sizes of the three
 * largest circuits; part 2 keeps wiring until a single circuit remains and
 * multiplies the x coordinates of the last pair wired.
 *
 * The union-find is modelled twice: `Forest` is its abstract value (the
 * root `find` reports for every element, the `sizes` list and the component
 * count) with the operations as pure functions, and the class `UnionFind`
 * keeps the arrays and the path-halving `find` of the program, each method
 * proved to act on the abstract value as the matching function does.
 */
module Day08 {
  import opened Parsing
  import opened Sorting
  import opened Sums

  // ---------------------------------------------------------------------
  // The abstract union-find

  /** What a union-find means: the root of each element, the `sizes` list and the component count. */
  datatype Forest = Forest(root: seq<int>, size: seq<int>, components: int)

  /** Every element has a root in range, and a root is its own root. */
  predicate Shaped(f: Forest)
  {
    |f.size| == |f.root| &&
    (forall i :: 0 <= i < |f.root| ==> 0 <= f.root[i] < |f.root|) &&
    (forall i :: 0 <= i < |f.root| ==> f.root[f.root[i]] == f.root[i])
  }

  /** The roots: one per circuit. */
  function Roots(f: Forest): set<int>
  {
    set r | 0 <= r < |f.root| && f.root[r] == r
  }

  /** The elements whose root is `r`: the circuit of `r`. */
  function Members(f: Forest, r: int): set<int>
  {
    set i | 0 <= i < |f.root| && f.root[i] == r
  }

  /** The invariants `__init__` sets up and `union` keeps: one component per root, and each root's size counts its circuit. */
  ghost predicate WellFormed(f: Forest)
  {
    Shaped(f) &&
    f.components == |Roots(f)| &&
    forall r :: r in Roots(f) ==> f.size[r] == |Members(f, r)|
  }

  /** `UnionFind(n)`: every element alone in its own circuit of size 1. */
  function Fresh(n: nat): (f: Forest)
    ensures Shaped(f) && |f.root| == n
  {
    Forest(seq(n, i => i), seq(n, i => 1), n)
  }

  /** Every element whose root is `b` takes root `a` instead. */
  function Relabel(root: seq<int>, b: int, a: int): (r: seq<int>)
    ensures |r| == |root| && forall i :: 0 <= i < |root| ==> r[i] == if root[i] == b then a else root[i]
  {
    seq(|root|, i requires 0 <= i < |root| => if root[i] == b then a else root[i])
  }

  /** `union(x, y)` on the abstract value: the root of the smaller circuit (y's on a tie) goes under the other. */
  function Join(f: Forest, x: int, y: int): (g: Forest)
    requires Shaped(f) && 0 <= x < |f.root| && 0 <= y < |f.root|
    ensures Shaped(g) && |g.root| == |f.root|
  {
    var rx, ry := f.root[x], f.root[y];
    if rx == ry then f
    else
      var a := if f.size[rx] < f.size[ry] then ry else rx;
      var b := if f.size[rx] < f.size[ry] then rx else ry;
      Forest(
        Relabel(f.root, b, a),
        f.size[a := f.size[a] + f.size[b]],
        f.components - 1)
  }

  /** `union` of two elements with different roots `a` (the survivor) and `b`, spelled out. */
  lemma JoinAt(f: Forest, x: int, y: int, a: int, b: int)
    requires Shaped(f) && 0 <= x < |f.root| && 0 <= y < |f.root| && f.root[x] != f.root[y]
    requires a == (if f.size[f.root[x]] < f.size[f.root[y]] then f.root[y] else f.root[x])
    requires b == (if f.size[f.root[x]] < f.size[f.root[y]] then f.root[x] else f.root[y])
    ensures Join(f, x, y) == Forest(Relabel(f.root, b, a), f.size[a := f.size[a] + f.size[b]], f.components - 1)
  {
  }

  /** Every element of a fresh union-find is a root, so there are n of them. */
  lemma {:induction false} FreshRoots(n: nat)
    ensures forall i :: i in Roots(Fresh(n)) <==> 0 <= i < n
    ensures |Roots(Fresh(n))| == n
  {
    if n > 0 {
      FreshRoots(n - 1);
      assert Roots(Fresh(n)) == Roots(Fresh(n - 1)) + {n - 1};
    }
  }

  /** A fresh union-find has `parents[i] == i`, `sizes[i] == 1` and `components == n`, and is well formed. */
  lemma FreshWellFormed(n: nat)
    ensures WellFormed(Fresh(n))
    ensures forall i :: 0 <= i < n ==> Fresh(n).root[i] == i && Fresh(n).size[i] == 1
  {
    var f := Fresh(n);
    FreshRoots(n);
    forall r | r in Roots(f)
      ensures f.size[r] == |Members(f, r)|
    {
      assert Members(f, r) == {r};
    }
  }

  /** After `union(x, y)`, x and y share a root, and elements that shared one still do. */
  lemma JoinLinks(f: Forest, x: int, y: int, u: int, v: int)
    requires Shaped(f) && 0 <= x < |f.root| && 0 <= y < |f.root|
    requires 0 <= u < |f.root| && 0 <= v < |f.root|
    ensures Join(f, x, y).root[x] == Join(f, x, y).root[y]
    ensures f.root[u] == f.root[v] ==> Join(f, x, y).root[u] == Join(f, x, y).root[v]
  {
  }

  /** `union` merges exactly the two circuits of x and y: u and v share a root afterwards iff they did, or they sat in those two circuits. */
  lemma JoinMerges(f: Forest, x: int, y: int, u: int, v: int)
    requires Shaped(f) && 0 <= x < |f.root| && 0 <= y < |f.root|
    requires 0 <= u < |f.root| && 0 <= v < |f.root|
    ensures Join(f, x, y).root[u] == Join(f, x, y).root[v] <==>
      f.root[u] == f.root[v] ||
      ({f.root[u], f.root[v]} == {f.root[x], f.root[y]})
  {
    var rx, ry := f.root[x], f.root[y];
    if rx != ry {
      var g := Join(f, x, y);
      if g.root[u] == g.root[v] && f.root[u] != f.root[v] {
        assert {f.root[u], f.root[v]} == {rx, ry};
      }
    }
  }

  /** When x and y already share a root, `union` changes nothing. */
  lemma JoinSame(f: Forest, x: int, y: int)
    requires Shaped(f) && 0 <= x < |f.root| && 0 <= y < |f.root| && f.root[x] == f.root[y]
    ensures Join(f, x, y) == f
  {
  }

  /** Otherwise the component count drops by one, the smaller root (y's on a tie) goes under the other, and the survivor's size is the sum. */
  lemma JoinDifferent(f: Forest, x: int, y: int)
    requires Shaped(f) && 0 <= x < |f.root| && 0 <= y < |f.root| && f.root[x] != f.root[y]
    ensures var g := Join(f, x, y);
      var rx, ry := f.root[x], f.root[y];
      var a := if f.size[rx] < f.size[ry] then ry else rx;
      var b := if f.size[rx] < f.size[ry] then rx else ry;
      g.components == f.components - 1 &&
      g.root[b] == a && g.root[a] == a &&
      g.size[a] == f.size[rx] + f.size[ry] &&
      (f.size[rx] == f.size[ry] ==> g.root[ry] == rx)
  {
  }

  /** The roots after a merge: the same, less the one that went under the other. */
  lemma JoinRoots(f: Forest, x: int, y: int)
    requires Shaped(f) && 0 <= x < |f.root| && 0 <= y < |f.root| && f.root[x] != f.root[y]
    ensures var rx, ry := f.root[x], f.root[y];
      var b := if f.size[rx] < f.size[ry] then rx else ry;
      Roots(Join(f, x, y)) == Roots(f) - {b} && b in Roots(f)
  {
  }

  /** The circuits after a merge: the survivor's is the union of the two, the others are unchanged. */
  lemma JoinMembers(f: Forest, x: int, y: int, r: int)
    requires Shaped(f) && 0 <= x < |f.root| && 0 <= y < |f.root| && f.root[x] != f.root[y]
    ensures var rx, ry := f.root[x], f.root[y];
      var a := if f.size[rx] < f.size[ry] then ry else rx;
      var b := if f.size[rx] < f.size[ry] then rx else ry;
      Members(Join(f, x, y), r) ==
        if r == a then Members(f, a) + Members(f, b) else if r == b then {} else Members(f, r)
  {
    var rx, ry := f.root[x], f.root[y];
    var a := if f.size[rx] < f.size[ry] then ry else rx;
    var b := if f.size[rx] < f.size[ry] then rx else ry;
    var g := Join(f, x, y);
    if r == b {
      forall i | i in Members(g, r) ensures false
      {
      }
    }
  }

  /** `union` keeps the invariants: one component per root, and each root's size counts its circuit. */
  lemma JoinWellFormed(f: Forest, x: int, y: int)
    requires WellFormed(f) && 0 <= x < |f.root| && 0 <= y < |f.root|
    ensures WellFormed(Join(f, x, y))
  {
    var rx, ry := f.root[x], f.root[y];
    if rx != ry {
      var g := Join(f, x, y);
      var a := if f.size[rx] < f.size[ry] then ry else rx;
      var b := if f.size[rx] < f.size[ry] then rx else ry;
      JoinRoots(f, x, y);
      forall r | r in Roots(g)
        ensures g.size[r] == |Members(g, r)|
      {
        JoinMembers(f, x, y, r);
        if r == a {
          assert Members(f, a) !! Members(f, b);
        }
      }
    }
  }

  /** The sizes of the roots below `m`, in index order. */
  function RootSizes(f: Forest, m: int): (s: seq<int>)
    requires |f.size| == |f.root| && m <= |f.root|
    decreases m
  {
    if m <= 0 then []
    else RootSizes(f, m - 1) + (if f.root[m - 1] == m - 1 then [f.size[m - 1]] else [])
  }

  /** The sizes of the roots below `m` add up to the number of elements whose root is below `m`. */
  lemma {:induction false} RootSizesSum(f: Forest, m: nat)
    requires WellFormed(f) && m <= |f.root|
    ensures SeqSum(RootSizes(f, m)) == |set i | 0 <= i < |f.root| && f.root[i] < m|
  {
    var below := set i | 0 <= i < |f.root| && f.root[i] < m;
    if m == 0 {
      assert below == {};
    } else {
      RootSizesSum(f, m - 1);
      var s := RootSizes(f, m);
      var before := set i | 0 <= i < |f.root| && f.root[i] < m - 1;
      if f.root[m - 1] == m - 1 {
        assert s == RootSizes(f, m - 1) + [f.size[m - 1]];
        assert s[..|s| - 1] == RootSizes(f, m - 1);
        assert SeqSum(s) == SeqSum(RootSizes(f, m - 1)) + f.size[m - 1];
        assert m - 1 in Roots(f);
        assert below == before + Members(f, m - 1);
        assert before !! Members(f, m - 1);
      } else {
        assert s == RootSizes(f, m - 1);
        assert below == before;
      }
    }
  }

  /** There is one size per root below `m`. */
  lemma {:induction false} RootSizesLength(f: Forest, m: nat)
    requires Shaped(f) && m <= |f.root|
    ensures |RootSizes(f, m)| == |set r | r in Roots(f) && r < m|
  {
    if m == 0 {
      assert (set r | r in Roots(f) && r < m) == {};
    } else {
      RootSizesLength(f, m - 1);
      if f.root[m - 1] == m - 1 {
        assert m - 1 in Roots(f);
        assert (set r | r in Roots(f) && r < m) == (set r | r in Roots(f) && r < m - 1) + {m - 1};
      } else {
        assert (set r | r in Roots(f) && r < m) == (set r | r in Roots(f) && r < m - 1);
      }
    }
  }

  /** There is one size per circuit, and the sizes of all the circuits add up to the number of elements. */
  lemma SizesAddUp(f: Forest)
    requires WellFormed(f)
    ensures |RootSizes(f, |f.root|)| == f.components
    ensures SeqSum(RootSizes(f, |f.root|)) == |f.root|
  {
    var n := |f.root|;
    RootSizesSum(f, n);
    RootSizesLength(f, n);
    assert (set r | r in Roots(f) && r < n) == Roots(f);
    FreshRoots(n);
    assert (set i | 0 <= i < n && f.root[i] < n) == Roots(Fresh(n));
  }

  // ---------------------------------------------------------------------
  // The union-find of the program

  /** Parent links that lead to the recorded roots: in range, towards the same root, down in rank, and a root is its own parent. */
  ghost predicate Links(parent: seq<int>, root: seq<int>, rank: seq<nat>)
  {
    |parent| == |root| == |rank| &&
    forall i {:trigger parent[i]} :: 0 <= i < |parent| ==>
      0 <= parent[i] < |parent| && root[parent[i]] == root[i] &&
      (parent[i] == i <==> root[i] == i) &&
      (parent[i] != i ==> rank[parent[i]] < rank[i])
  }

  /** Pointing a non-root at its grandparent keeps the links, and the grandparent is lower in rank with the same root. */
  lemma HalveLinks(parent: seq<int>, root: seq<int>, rank: seq<nat>, r: int)
    requires Links(parent, root, rank) && 0 <= r < |parent| && parent[r] != r
    ensures var g := parent[parent[r]];
      Links(parent[r := g], root, rank) && rank[g] < rank[r] && root[g] == root[r]
  {
  }

  /** The ranks of the elements whose root is `b` raised by `up`. */
  function Lift(rank: seq<nat>, root: seq<int>, b: int, up: nat): (r: seq<nat>)
    requires |rank| == |root|
    ensures |r| == |rank| && forall i :: 0 <= i < |rank| ==> r[i] == if root[i] == b then rank[i] + up else rank[i]
  {
    seq(|rank|, i requires 0 <= i < |rank| => if root[i] == b then rank[i] + up else rank[i])
  }

  /** Hanging root `b` under root `a` keeps the links once b's elements take root `a` and rise above a in rank. */
  lemma HangLinks(parent: seq<int>, root: seq<int>, rank: seq<nat>, a: int, b: int)
    requires Links(parent, root, rank) && 0 <= a < |parent| && 0 <= b < |parent| && a != b
    requires root[a] == a && root[b] == b
    ensures Links(parent[b := a], Relabel(root, b, a), Lift(rank, root, b, rank[a] + 1))
  {
  }

  /** `UnionFind`: `parents` and `sizes` lists updated in place, and the component count. */
  class UnionFind {
    var parents: array<int>
    var sizes: array<int>
    var components: int
    /** The root `find` reaches from each element. */
    ghost var root: seq<int>
    /** A measure that drops along every parent link, so that `find` stops. */
    ghost var rank: seq<nat>

    /** The abstract value. */
    ghost function Model(): Forest
      reads this, sizes
    {
      Forest(root, sizes[..], components)
    }

    /** The parent links lead to the recorded roots. */
    ghost predicate Linked()
      reads this, parents, sizes
    {
      parents != sizes && parents.Length == sizes.Length && Links(parents[..], root, rank)
    }

    /** The links are sound and the abstract value is a forest; `WellFormed` then follows from the history (`UniteWellFormed`). */
    ghost predicate Valid()
      reads this, parents, sizes
    {
      Linked() && Shaped(Model())
    }

    /** `UnionFind(n)`: `parents = [0, ..., n - 1]`, `sizes = [1] * n`, `components = n`. */
    constructor (n: nat)
      ensures Valid() && fresh(parents) && fresh(sizes)
      ensures Model() == Fresh(n)
      ensures parents[..] == seq(n, i => i) && sizes[..] == seq(n, i => 1) && components == n
    {
      parents := new int[n](i => i);
      sizes := new int[n](i => 1);
      components := n;
      root := seq(n, i => i);
      rank := seq(n, i => 0);
      new;
      assert Model() == Fresh(n);
    }

    /** `find`: follows the parents to the root, pointing each visited element at its grandparent on the way (path halving). */
    method Find(x: int) returns (r: int)
      requires Valid() && 0 <= x < parents.Length
      modifies parents
      ensures Valid() && Model() == old(Model()) && rank == old(rank)
      ensures r == root[x] && parents[r] == r
    {
      r := x;
      while r != parents[r]
        invariant Linked() && Model() == old(Model()) && rank == old(rank)
        invariant 0 <= r < parents.Length && root[r] == root[x]
        decreases rank[r]
      {
        HalveLinks(parents[..], root, rank, r);
        var grandparent := parents[parents[r]];
        parents[r] := grandparent;
        r := grandparent;
      }
    }

    /** `union`: joins the circuits of x and y, the smaller root going under the larger (y's under x's on a tie). */
    method Union(x: int, y: int)
      requires Valid() && 0 <= x < parents.Length && 0 <= y < parents.Length
      modifies this, parents, sizes
      ensures Valid() && parents == old(parents) && sizes == old(sizes)
      ensures Model() == Join(old(Model()), x, y)
    {
      var rx := Find(x);
      var ry := Find(y);
      if rx == ry {
        return;
      }
      if sizes[rx] < sizes[ry] {
        rx, ry := ry, rx;
      }
      ghost var before := Model();
      Hang(rx, ry);
      JoinAt(before, x, y, rx, ry);
    }

    /** The last lines of `union`: root b goes under root a, whose size absorbs b's, and one circuit fewer remains. */
    method Hang(a: int, b: int)
      requires Valid() && 0 <= a < parents.Length && 0 <= b < parents.Length && a != b
      requires parents[a] == a && parents[b] == b && root[a] == a && root[b] == b
      modifies this, parents, sizes
      ensures Valid() && parents == old(parents) && sizes == old(sizes)
      ensures Model() == Forest(Relabel(old(root), b, a), old(sizes[..])[a := old(sizes[a]) + old(sizes[b])], old(components) - 1)
    {
      ghost var links := parents[..];
      HangLinks(links, root, rank, a, b);
      components := components - 1;
      sizes[a] := sizes[a] + sizes[b];
      parents[b] := a;
      assert parents[..] == links[b := a];
      rank := Lift(rank, root, b, rank[a] + 1);
      root := Relabel(root, b, a);
    }
  }

  // ---------------------------------------------------------------------
  // Points and the edges between them

  /** A junction box. */
  datatype Point = Point(x: int, y: int, z: int)

  /** An edge: the squared distance, then the two indexes, the first the larger. */
  type Edge = (int, int, int)

  /** `_distance`: the squared Euclidean distance. */
  function Distance(a: Point, b: Point): int
  {
    (a.x - b.x) * (a.x - b.x) + (a.y - b.y) * (a.y - b.y) + (a.z - b.z) * (a.z - b.z)
  }

  /** The squared distance is never negative, is symmetric, and is zero exactly between equal points. */
  lemma DistanceMetric(a: Point, b: Point)
    ensures Distance(a, b) >= 0 && Distance(a, b) == Distance(b, a)
    ensures Distance(a, b) == 0 <==> a == b
  {
    var dx, dy, dz := a.x - b.x, a.y - b.y, a.z - b.z;
    assert dx * dx >= 0 && dy * dy >= 0 && dz * dz >= 0;
    if a != b {
      assert dx * dx > 0 || dy * dy > 0 || dz * dz > 0;
    }
  }

  /** One line of the input, `x,y,z`; None where the program raises (not three fields, or a field that is not an integer). */
  function ParsePoint(line: string): (p: Option<Point>)
    ensures p.Some? ==> |Split(Strip(line), ",")| == 3
  {
    var fields := Split(Strip(line), ",");
    if |fields| != 3 then None
    else
      var x, y, z := ParseInt(fields[0]), ParseInt(fields[1]), ParseInt(fields[2]);
      if x.Some? && y.Some? && z.Some? then Some(Point(x.value, y.value, z.value)) else None
  }

  /** The points of the input, one per line, None if any line fails to parse. */
  function ParsePoints(lines: seq<string>): (r: Option<seq<Point>>)
    ensures r.Some? <==> forall k :: 0 <= k < |lines| ==> ParsePoint(lines[k]).Some?
    ensures r.Some? ==> |r.value| == |lines| && forall k :: 0 <= k < |lines| ==> ParsePoint(lines[k]) == Some(r.value[k])
  {
    if forall k :: 0 <= k < |lines| ==> ParsePoint(lines[k]).Some? then
      Some(seq(|lines|, k requires 0 <= k < |lines| => ParsePoint(lines[k]).value))
    else None
  }

  /** The edges from point `i` to each earlier point. */
  function EdgesOf(points: seq<Point>, i: int): (row: seq<Edge>)
    requires 0 <= i < |points|
    ensures |row| == i
    ensures forall j :: 0 <= j < i ==> row[j] == (Distance(points[i], points[j]), i, j)
  {
    seq(i, j requires 0 <= j < i => (Distance(points[i], points[j]), i, j))
  }

  /** The edges of `_parse_inputs` among the first m points: i ascending, and for each i, j from 0 to i - 1. */
  function Edges(points: seq<Point>, m: int): (e: seq<Edge>)
    requires m <= |points|
    decreases m
  {
    if m <= 0 then [] else Edges(points, m - 1) + EdgesOf(points, m - 1)
  }

  /** Both ends of every edge are indexes of points. */
  predicate InRange(edges: seq<Edge>, n: int)
  {
    forall k :: 0 <= k < |edges| ==> 0 <= edges[k].1 < n && 0 <= edges[k].2 < n
  }

  /** There is one edge per pair of distinct points: m (m - 1) / 2 of them. */
  lemma {:induction false} EdgesCount(points: seq<Point>, m: nat)
    requires m <= |points|
    ensures |Edges(points, m)| == m * (m - 1) / 2
  {
    if m > 0 {
      EdgesCount(points, m - 1);
      assert (m - 1) * (m - 2) + 2 * (m - 1) == m * (m - 1);
    }
  }

  /** Every edge joins some j < i < m at their distance, and every such pair has its edge. */
  lemma {:induction false} EdgesPairs(points: seq<Point>, m: nat)
    requires m <= |points|
    ensures forall e: Edge :: e in Edges(points, m) <==>
      0 <= e.2 < e.1 < m && e.0 == Distance(points[e.1], points[e.2])
  {
    if m > 0 {
      EdgesPairs(points, m - 1);
      var before, row := Edges(points, m - 1), EdgesOf(points, m - 1);
      assert Edges(points, m) == before + row;
      forall e: Edge | e in Edges(points, m)
        ensures 0 <= e.2 < e.1 < m && e.0 == Distance(points[e.1], points[e.2])
      {
        if e !in before {
          var j :| 0 <= j < |row| && row[j] == e;
        }
      }
      forall e: Edge | 0 <= e.2 < e.1 < m && e.0 == Distance(points[e.1], points[e.2])
        ensures e in Edges(points, m)
      {
        if e.1 == m - 1 {
          assert row[e.2] == e;
        } else {
          assert e in before;
        }
      }
    }
  }

  // ---------------------------------------------------------------------
  // Part 1: wire the closest pairs

  /** `heapq.nsmallest(pairs, edges)`: the first `pairs` edges in ascending order (all of them if there are fewer, none if `pairs` is not positive). */
  function Smallest(edges: seq<Edge>, pairs: int): (chosen: seq<Edge>)
  {
    var sorted := SortBy(edges, TripleLe);
    var m := if pairs <= 0 then 0 else if pairs < |sorted| then pairs else |sorted|;
    sorted[..m]
  }

  /** The chosen edges come in ascending order, are taken from the edges, number min(pairs, |edges|) (0 for pairs <= 0), and none left out is below one chosen. */
  lemma SmallestChosen(edges: seq<Edge>, pairs: int)
    ensures var chosen := Smallest(edges, pairs);
      Sorted(chosen, TripleLe) &&
      multiset(chosen) <= multiset(edges) &&
      |chosen| == (if pairs <= 0 then 0 else if pairs < |edges| then pairs else |edges|) &&
      forall e, f :: e in chosen && f in multiset(edges) - multiset(chosen) ==> TripleLe(e, f)
  {
    TripleLeOrders();
    SortByPrefix(edges, TripleLe, |Smallest(edges, pairs)|);
  }

  /** Sorting or cutting a list of edges keeps both ends of each in range. */
  lemma ChosenInRange(edges: seq<Edge>, chosen: seq<Edge>, n: int)
    requires InRange(edges, n) && multiset(chosen) <= multiset(edges)
    ensures InRange(chosen, n)
  {
    forall k | 0 <= k < |chosen|
      ensures 0 <= chosen[k].1 < n && 0 <= chosen[k].2 < n
    {
      assert chosen[k] in multiset(chosen);
      assert chosen[k] in edges;
    }
  }

  /** The edges of the points are in range. */
  lemma EdgesInRange(points: seq<Point>, m: nat)
    requires m <= |points|
    ensures InRange(Edges(points, m), m)
  {
    EdgesPairs(points, m);
    forall k | 0 <= k < |Edges(points, m)|
      ensures 0 <= Edges(points, m)[k].1 < m && 0 <= Edges(points, m)[k].2 < m
    {
      assert Edges(points, m)[k] in Edges(points, m);
    }
  }

  /** The `for _, i, j in edges: uf.union(i, j)` loop on the abstract value. */
  function Unite(f: Forest, edges: seq<Edge>): (g: Forest)
    requires Shaped(f) && InRange(edges, |f.root|)
    ensures Shaped(g) && |g.root| == |f.root|
    decreases |edges|
  {
    if edges == [] then f
    else
      var e := edges[|edges| - 1];
      Join(Unite(f, edges[..|edges| - 1]), e.1, e.2)
  }

  /** Every union keeps the invariants. */
  lemma {:induction false} UniteWellFormed(f: Forest, edges: seq<Edge>)
    requires WellFormed(f) && InRange(edges, |f.root|)
    ensures WellFormed(Unite(f, edges))
    decreases |edges|
  {
    if edges != [] {
      var e := edges[|edges| - 1];
      UniteWellFormed(f, edges[..|edges| - 1]);
      JoinWellFormed(Unite(f, edges[..|edges| - 1]), e.1, e.2);
    }
  }

  /** After the loop, the two ends of every wired edge are in one circuit, and elements that shared a circuit before still do. */
  lemma {:induction false} UniteJoins(f: Forest, edges: seq<Edge>)
    requires Shaped(f) && InRange(edges, |f.root|)
    ensures var g := Unite(f, edges);
      (forall k :: 0 <= k < |edges| ==> g.root[edges[k].1] == g.root[edges[k].2]) &&
      (forall u, v :: 0 <= u < |f.root| && 0 <= v < |f.root| && f.root[u] == f.root[v] ==> g.root[u] == g.root[v])
    decreases |edges|
  {
    if edges != [] {
      var init := edges[..|edges| - 1];
      var e := edges[|edges| - 1];
      var h := Unite(f, init);
      UniteJoins(f, init);
      var g := Join(h, e.1, e.2);
      forall u, v | 0 <= u < |f.root| && 0 <= v < |f.root| && h.root[u] == h.root[v]
        ensures g.root[u] == g.root[v]
      {
        JoinLinks(h, e.1, e.2, u, v);
      }
      JoinLinks(h, e.1, e.2, e.1, e.1);
      forall k | 0 <= k < |edges|
        ensures g.root[edges[k].1] == g.root[edges[k].2]
      {
        if k < |init| {
          assert init[k] == edges[k];
        }
      }
    }
  }

  /** The sizes of the circuits once the chosen pairs are wired, in root order; None when the input does not parse. */
  function CircuitSizes(lines: seq<string>, pairs: int): (sizes: Option<seq<int>>)
  {
    var points := ParsePoints(lines);
    if points.None? then None
    else
      var n := |points.value|;
      EdgesInRange(points.value, n);
      var chosen := Smallest(Edges(points.value, n), pairs);
      SmallestChosen(Edges(points.value, n), pairs);
      ChosenInRange(Edges(points.value, n), chosen, n);
      var f := Unite(Fresh(n), chosen);
      Some(RootSizes(f, n))
  }

  /** What `part_1` returns: the product of the three largest circuit sizes; None when the input does not parse or there are fewer than three circuits. */
  function Part1Spec(lines: seq<string>, pairs: int): Option<int>
  {
    var sizes := CircuitSizes(lines, pairs);
    if sizes.None? || |sizes.value| < 3 then None
    else
      var s := SortBy(sizes.value, IntGe);
      Some(s[0] * s[1] * s[2])
  }

  /** Every root's size is positive: the root is in its own circuit. */
  lemma {:induction false} RootSizesPositive(f: Forest, m: nat)
    requires WellFormed(f) && m <= |f.root|
    ensures forall k :: 0 <= k < |RootSizes(f, m)| ==> RootSizes(f, m)[k] >= 1
  {
    if m > 0 {
      RootSizesPositive(f, m - 1);
      if f.root[m - 1] == m - 1 {
        assert m - 1 in Roots(f) && m - 1 in Members(f, m - 1);
      }
    }
  }

  /** There is one size per circuit, every size is positive, and they add up to the number of points. */
  lemma CircuitSizesCount(lines: seq<string>, pairs: int)
    requires ParsePoints(lines).Some?
    ensures var sizes := CircuitSizes(lines, pairs).value;
      SeqSum(sizes) == |lines| && forall k :: 0 <= k < |sizes| ==> sizes[k] >= 1
  {
    var points := ParsePoints(lines).value;
    var n := |points|;
    EdgesInRange(points, n);
    var chosen := Smallest(Edges(points, n), pairs);
    SmallestChosen(Edges(points, n), pairs);
    ChosenInRange(Edges(points, n), chosen, n);
    FreshWellFormed(n);
    UniteWellFormed(Fresh(n), chosen);
    var f := Unite(Fresh(n), chosen);
    SizesAddUp(f);
    RootSizesPositive(f, n);
  }

  /** `heapq.nlargest(3, sizes)`: three sizes in descending order, taken from the list, and none left out is larger than the third. */
  lemma ThreeLargest(sizes: seq<int>)
    requires |sizes| >= 3
    ensures var s := SortBy(sizes, IntGe);
      s[0] >= s[1] >= s[2] && multiset(s[..3]) <= multiset(sizes) &&
      forall e :: e in multiset(sizes) - multiset(s[..3]) ==> e <= s[2]
  {
    var s := SortBy(sizes, IntGe);
    var top := s[..3];
    assert top[0] == s[0] && top[1] == s[1] && top[2] == s[2];
    IntGeOrders();
    SortByPrefix(sizes, IntGe, 3);
    assert IntGe(top[0], top[1]) && IntGe(top[1], top[2]);
    forall e | e in multiset(sizes) - multiset(top)
      ensures e <= s[2]
    {
      assert top[2] in top;
      assert IntGe(top[2], e);
    }
  }

  /** The roots `find` reports for the elements are exactly the roots. */
  lemma FoundRoots(f: Forest)
    requires Shaped(f)
    ensures (set j | 0 <= j < |f.root| :: f.root[j]) == Roots(f)
  {
    forall r | r in Roots(f)
      ensures r in set j | 0 <= j < |f.root| :: f.root[j]
    {
      assert f.root[r] == r;
    }
  }

  /** The `for _, i, j in edges: uf.union(i, j)` loop. */
  method Wire(uf: UnionFind, edges: seq<Edge>)
    requires uf.Valid() && InRange(edges, uf.parents.Length)
    modifies uf, uf.parents, uf.sizes
    ensures uf.Valid() && uf.parents == old(uf.parents) && uf.sizes == old(uf.sizes)
    ensures uf.Model() == Unite(old(uf.Model()), edges)
  {
    for k := 0 to |edges|
      invariant uf.Valid() && uf.parents == old(uf.parents) && uf.sizes == old(uf.sizes)
      invariant uf.Model() == Unite(old(uf.Model()), edges[..k])
    {
      assert edges[..k + 1][..k] == edges[..k];
      uf.Union(edges[k].1, edges[k].2);
    }
    assert edges[..|edges|] == edges;
  }

  /** `{uf.find(i) for i in range(len(points))}`: the roots. */
  method Circuits(uf: UnionFind) returns (circuits: set<int>)
    requires uf.Valid()
    modifies uf.parents
    ensures uf.Valid() && uf.Model() == old(uf.Model())
    ensures circuits == Roots(uf.Model())
  {
    ghost var f := uf.Model();
    circuits := {};
    for i := 0 to uf.parents.Length
      invariant uf.Valid() && uf.Model() == f
      invariant circuits == set j | 0 <= j < i :: f.root[j]
    {
      var c := uf.Find(i);
      circuits := circuits + {c};
    }
    FoundRoots(f);
  }

  /** `uf.sizes[x] for x in circuits`, taking the circuits in index order. */
  method SizesOf(uf: UnionFind, circuits: set<int>) returns (sizes: seq<int>)
    requires uf.Valid() && circuits == Roots(uf.Model())
    ensures sizes == RootSizes(uf.Model(), uf.parents.Length)
  {
    sizes := [];
    for x := 0 to uf.parents.Length
      invariant sizes == RootSizes(uf.Model(), x)
    {
      if x in circuits {
        sizes := sizes + [uf.sizes[x]];
      }
    }
  }

  /** `part_1`: wire the `pairs` closest pairs, collect the circuits with `find`, and multiply the three largest sizes. */
  method Part1(lines: seq<string>, pairs: int) returns (r: Option<int>)
    ensures r == Part1Spec(lines, pairs)
  {
    var parsed := ParsePoints(lines);
    if parsed.None? {
      return None;
    }
    var points := parsed.value;
    var n := |points|;
    var edges := Edges(points, n);
    var chosen := Smallest(edges, pairs);
    EdgesInRange(points, n);
    SmallestChosen(edges, pairs);
    ChosenInRange(edges, chosen, n);
    var uf := new UnionFind(n);
    Wire(uf, chosen);
    var circuits := Circuits(uf);
    var sizes := SizesOf(uf, circuits);
    var s := SortBy(sizes, IntGe);
    if |s| < 3 {
      return None;
    }
    return Some(s[0] * s[1] * s[2]);
  }

  // ---------------------------------------------------------------------
  // Part 2: wire until one circuit remains

  /** The `while uf.components > 1` loop on the abstract value: the k-th closest pair is wired next and `last` holds the product of the x coordinates of the last pair wired; None once the edges run out (`heappop` on an empty heap raises). */
  function Connect(points: seq<Point>, edges: seq<Edge>, f: Forest, k: nat, last: int): Option<int>
    requires Shaped(f) && |f.root| == |points| && InRange(edges, |points|) && k <= |edges|
    decreases |edges| - k
  {
    if f.components <= 1 then Some(last)
    else if k == |edges| then None
    else
      var e := edges[k];
      Connect(points, edges, Join(f, e.1, e.2), k + 1, points[e.1].x * points[e.2].x)
  }

  /** What `part_2` returns; None when the input does not parse. */
  function Part2Spec(lines: seq<string>): Option<int>
  {
    var points := ParsePoints(lines);
    if points.None? then None
    else
      var n := |points.value|;
      var edges := Edges(points.value, n);
      EdgesInRange(points.value, n);
      var heap := SortBy(edges, TripleLe);
      ChosenInRange(edges, heap, n);
      Connect(points.value, heap, Fresh(n), 0, 0)
  }

  /** A well-formed union-find over at least one element has at least one circuit. */
  lemma ComponentsPositive(f: Forest)
    requires WellFormed(f) && |f.root| >= 1
    ensures f.components >= 1
  {
    assert f.root[0] in Roots(f);
  }

  /** Wiring every pair of points puts each point in the circuit of point 0. */
  lemma CompleteJoins(points: seq<Point>, edges: seq<Edge>, i: int)
    requires multiset(edges) == multiset(Edges(points, |points|))
    requires InRange(edges, |points|) && 0 < i < |points|
    ensures Unite(Fresh(|points|), edges).root[i] == Unite(Fresh(|points|), edges).root[0]
  {
    var n := |points|;
    EdgesPairs(points, n);
    var e: Edge := (Distance(points[i], points[0]), i, 0);
    assert e in Edges(points, n);
    assert e in multiset(edges);
    var k :| 0 <= k < |edges| && edges[k] == e;
    UniteJoins(Fresh(n), edges);
  }

  /** Wiring every pair of points leaves at most one circuit. */
  lemma CompleteUnite(points: seq<Point>, edges: seq<Edge>)
    requires multiset(edges) == multiset(Edges(points, |points|))
    requires InRange(edges, |points|)
    ensures Unite(Fresh(|points|), edges).components <= 1
  {
    var n := |points|;
    var g := Unite(Fresh(n), edges);
    FreshWellFormed(n);
    UniteWellFormed(Fresh(n), edges);
    if n > 0 {
      forall r | r in Roots(g)
        ensures r == g.root[0]
      {
        if r > 0 {
          CompleteJoins(points, edges, r);
        }
      }
      assert Roots(g) <= {g.root[0]};
      SubsetSize(Roots(g), {g.root[0]});
    } else {
      assert Roots(g) == {};
    }
  }

  /** While circuits remain to merge, the loop finds a pair to wire: it never runs out of edges. */
  lemma {:induction false} ConnectDefined(points: seq<Point>, edges: seq<Edge>, k: nat, last: int)
    requires InRange(edges, |points|) && k <= |edges|
    requires Unite(Fresh(|points|), edges).components <= 1
    ensures Connect(points, edges, Unite(Fresh(|points|), edges[..k]), k, last).Some?
    decreases |edges| - k
  {
    var n := |points|;
    var f := Unite(Fresh(n), edges[..k]);
    if k == |edges| {
      assert edges[..k] == edges;
    } else if f.components > 1 {
      var e := edges[k];
      assert edges[..k + 1][..k] == edges[..k];
      ConnectDefined(points, edges, k + 1, points[e.1].x * points[e.2].x);
    }
  }

  /** `part_2` always returns once the input parses. */
  lemma Part2Defined(lines: seq<string>)
    requires ParsePoints(lines).Some?
    ensures Part2Spec(lines).Some?
  {
    var points := ParsePoints(lines).value;
    var n := |points|;
    var edges := Edges(points, n);
    EdgesInRange(points, n);
    var heap := SortBy(edges, TripleLe);
    ChosenInRange(edges, heap, n);
    CompleteUnite(points, heap);
    ConnectDefined(points, heap, 0, 0);
    assert heap[..0] == [];
  }

  /** The result is the product of the x coordinates of the pair whose wiring left one circuit. */
  lemma {:induction false} ConnectLast(points: seq<Point>, edges: seq<Edge>, k: nat, last: int, r: int)
    requires InRange(edges, |points|) && k <= |edges|
    requires Unite(Fresh(|points|), edges[..k]).components > 1
    requires Connect(points, edges, Unite(Fresh(|points|), edges[..k]), k, last) == Some(r)
    ensures exists j :: (k <= j < |edges| &&
      Unite(Fresh(|points|), edges[..j]).components > 1 &&
      Unite(Fresh(|points|), edges[..j + 1]).components <= 1 &&
      r == points[edges[j].1].x * points[edges[j].2].x)
    decreases |edges| - k
  {
    var n := |points|;
    var e := edges[k];
    assert edges[..k + 1][..k] == edges[..k];
    var g := Unite(Fresh(n), edges[..k + 1]);
    if g.components > 1 {
      ConnectLast(points, edges, k + 1, points[e.1].x * points[e.2].x, r);
    }
  }

  /** From a fresh union-find over two or more points, the loop ends at the pair whose wiring left exactly one circuit. */
  lemma {:induction false} ConnectFresh(points: seq<Point>, edges: seq<Edge>, r: int)
    requires InRange(edges, |points|) && |points| >= 2
    requires Connect(points, edges, Fresh(|points|), 0, 0) == Some(r)
    ensures exists j :: (0 <= j < |edges| &&
      Unite(Fresh(|points|), edges[..j]).components > 1 &&
      Unite(Fresh(|points|), edges[..j + 1]).components == 1 &&
      r == points[edges[j].1].x * points[edges[j].2].x)
  {
    var n := |points|;
    assert edges[..0] == [];
    ConnectLast(points, edges, 0, 0, r);
    var j :| 0 <= j < |edges| &&
      Unite(Fresh(n), edges[..j]).components > 1 &&
      Unite(Fresh(n), edges[..j + 1]).components <= 1 &&
      r == points[edges[j].1].x * points[edges[j].2].x;
    FreshWellFormed(n);
    UniteWellFormed(Fresh(n), edges[..j + 1]);
    ComponentsPositive(Unite(Fresh(n), edges[..j + 1]));
  }

  /** With two or more points the result comes from the pair (in ascending order of distance) that joined the last two circuits; with fewer the loop never runs and the result is 0. */
  lemma Part2Last(lines: seq<string>)
    requires ParsePoints(lines).Some?
    ensures var points := ParsePoints(lines).value;
      var n := |points|;
      var heap := SortBy(Edges(points, n), TripleLe);
      (n <= 1 ==> Part2Spec(lines) == Some(0)) &&
      (n >= 2 ==> InRange(heap, n) && exists j :: (0 <= j < |heap| &&
        Unite(Fresh(n), heap[..j]).components > 1 &&
        Unite(Fresh(n), heap[..j + 1]).components == 1 &&
        Part2Spec(lines) == Some(points[heap[j].1].x * points[heap[j].2].x)))
  {
    var points := ParsePoints(lines).value;
    var n := |points|;
    var edges := Edges(points, n);
    EdgesInRange(points, n);
    var heap := SortBy(edges, TripleLe);
    ChosenInRange(edges, heap, n);
    if n >= 2 {
      Part2Defined(lines);
      ConnectFresh(points, heap, Part2Spec(lines).value);
    }
  }

  /** `part_2`: pop the closest remaining pair and wire it until one circuit remains. */
  method Part2(lines: seq<string>) returns (r: Option<int>)
    ensures r == Part2Spec(lines)
  {
    var parsed := ParsePoints(lines);
    if parsed.None? {
      return None;
    }
    var points := parsed.value;
    var n := |points|;
    var edges := Edges(points, n);
    EdgesInRange(points, n);
    var heap := SortBy(edges, TripleLe);
    ChosenInRange(edges, heap, n);
    var uf := new UnionFind(n);
    var result := 0;
    var k := 0;
    while uf.components > 1
      invariant uf.Valid() && uf.parents.Length == n && fresh(uf.parents) && fresh(uf.sizes)
      invariant 0 <= k <= |heap|
      invariant Connect(points, heap, uf.Model(), k, result) == Part2Spec(lines)
      decreases |heap| - k
    {
      if k == |heap| {
        return None;
      }
      var e := heap[k];
      k := k + 1;
      uf.Union(e.1, e.2);
      result := points[e.1].x * points[e.2].x;
    }
    return Some(result);
  }
}
