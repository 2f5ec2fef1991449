/**
 * Python's `sorted`, `list.sort`, `heapq.nsmallest` and repeated `heappop`
 * all hand back the elements in ascending order under a total preorder (for
 * tuples, Python's lexicographic comparison). They are modelled by one
 * insertion sort, specified as "sorted and a permutation of the input".
 */
module Sorting {

  ghost predicate Transitive<T(!new)>(le: (T, T) -> bool)
  {
    forall a, b, c :: le(a, b) && le(b, c) ==> le(a, c)
  }

  ghost predicate Total<T(!new)>(le: (T, T) -> bool)
  {
    forall a, b :: le(a, b) || le(b, a)
  }

  ghost predicate TotalPreorder<T(!new)>(le: (T, T) -> bool)
  {
    Transitive(le) && Total(le)
  }

  predicate Sorted<T>(s: seq<T>, le: (T, T) -> bool)
  {
    forall i, j :: 0 <= i < j < |s| ==> le(s[i], s[j])
  }

  /** Puts `x` before the first element it is not above. */
  function Insert<T>(x: T, s: seq<T>, le: (T, T) -> bool): (r: seq<T>)
    ensures multiset(r) == multiset(s) + multiset{x}
  {
    if s == [] || le(x, s[0]) then [x] + s
    else
      assert s == [s[0]] + s[1..];
      [s[0]] + Insert(x, s[1..], le)
  }

  lemma {:induction false} InsertSorted<T(!new)>(x: T, s: seq<T>, le: (T, T) -> bool)
    requires TotalPreorder(le) && Sorted(s, le)
    ensures Sorted(Insert(x, s, le), le)
  {
    if s != [] && !le(x, s[0]) {
      InsertSorted(x, s[1..], le);
      var r := Insert(x, s, le);
      var t := Insert(x, s[1..], le);
      assert r == [s[0]] + t;
      assert le(s[0], x);
      forall k | 0 <= k < |t| ensures le(s[0], t[k])
      {
        assert t[k] in multiset(t);
        assert t[k] in multiset(s[1..]) + multiset{x};
        if t[k] != x {
          assert t[k] in s[1..];
          var m :| 0 <= m < |s[1..]| && s[1..][m] == t[k];
          assert s[m + 1] == t[k];
        }
      }
    }
  }

  /** The elements of `s` in ascending order. */
  function SortBy<T>(s: seq<T>, le: (T, T) -> bool): (r: seq<T>)
    ensures multiset(r) == multiset(s) && |r| == |s|
  {
    if s == [] then []
    else
      assert s == [s[0]] + s[1..];
      Insert(s[0], SortBy(s[1..], le), le)
  }

  lemma {:induction false} SortBySorted<T(!new)>(s: seq<T>, le: (T, T) -> bool)
    requires TotalPreorder(le)
    ensures Sorted(SortBy(s, le), le)
  {
    if s != [] {
      SortBySorted(s[1..], le);
      InsertSorted(s[0], SortBy(s[1..], le), le);
    }
  }

  /** Sorting a sequence that is already in order leaves it as it is. */
  lemma {:induction false} SortByIdentity<T>(s: seq<T>, le: (T, T) -> bool)
    requires Sorted(s, le)
    ensures SortBy(s, le) == s
  {
    if s != [] {
      assert Sorted(s[1..], le) by {
        forall i, j | 0 <= i < j < |s[1..]| ensures le(s[1..][i], s[1..][j])
        {
          assert s[1..][i] == s[i + 1] && s[1..][j] == s[j + 1];
        }
      }
      SortByIdentity(s[1..], le);
      if |s| > 1 {
        assert le(s[0], s[1..][0]);
      }
      assert [s[0]] + s[1..] == s;
    }
  }

  /** In a sorted sequence, everything before position m comes before everything from m on. */
  lemma SortedSplit<T>(t: seq<T>, le: (T, T) -> bool, m: nat)
    requires Sorted(t, le) && m <= |t|
    ensures Sorted(t[..m], le)
    ensures forall e, f :: e in t[..m] && f in t[m..] ==> le(e, f)
  {
    forall e, f | e in t[..m] && f in t[m..]
      ensures le(e, f)
    {
      var i :| 0 <= i < m && t[..m][i] == e;
      var j :| 0 <= j < |t| - m && t[m..][j] == f;
      assert t[i] == e && t[m + j] == f;
    }
  }

  /** Cutting a sequence at m splits its multiset in two. */
  lemma PrefixRest<T>(t: seq<T>, m: nat)
    requires m <= |t|
    ensures multiset(t[..m]) <= multiset(t) && multiset(t) - multiset(t[..m]) == multiset(t[m..])
  {
    assert t == t[..m] + t[m..];
  }

  /** The first m elements in order: taken from `s`, and none of those left behind comes before one of them (what `heapq.nsmallest` promises). */
  lemma SortByPrefix<T(!new)>(s: seq<T>, le: (T, T) -> bool, m: nat)
    requires TotalPreorder(le) && m <= |s|
    ensures var t := SortBy(s, le);
      Sorted(t[..m], le) && multiset(t[..m]) <= multiset(s) &&
      forall e, f :: e in t[..m] && f in multiset(s) - multiset(t[..m]) ==> le(e, f)
  {
    var t := SortBy(s, le);
    PrefixRest(t, m);
    SortBySorted(s, le);
    SortedSplit(t, le, m);
  }

  /** Python's `<=` on pairs of integers: lexicographic. */
  function PairLe(a: (int, int), b: (int, int)): bool
  {
    a.0 < b.0 || (a.0 == b.0 && a.1 <= b.1)
  }

  /** Python's `<=` on triples of integers: lexicographic. */
  function TripleLe(a: (int, int, int), b: (int, int, int)): bool
  {
    a.0 < b.0 || (a.0 == b.0 && (a.1 < b.1 || (a.1 == b.1 && a.2 <= b.2)))
  }

  /** The order `sorted(..., reverse=True)` produces. */
  function TripleGe(a: (int, int, int), b: (int, int, int)): bool
  {
    TripleLe(b, a)
  }

  lemma PairLeOrders()
    ensures TotalPreorder(PairLe)
  {
  }

  lemma TripleLeOrders()
    ensures TotalPreorder(TripleLe) && TotalPreorder(TripleGe)
  {
  }

  /** The order `sorted(..., reverse=True)` and `heapq.nlargest` produce on integers. */
  function IntGe(a: int, b: int): bool
  {
    a >= b
  }

  lemma IntGeOrders()
    ensures TotalPreorder(IntGe)
  {
  }
}
