/**
 * Sums of integers as Python's `sum` computes them: over a sequence, and over
 * the members of a set of naturals below a bound (the order in which a
 * generator yields distinct numbers does not change their sum).
 */
module Sums {
  import opened Parsing

  function SeqSum(s: seq<int>): int
  {
    if s == [] then 0 else SeqSum(s[..|s| - 1]) + s[|s| - 1]
  }

  /** The sum of the members of `s` that lie in 0..m-1. */
  ghost function SumBelow(s: set<int>, m: int): int
    decreases m
  {
    if m <= 0 then 0 else SumBelow(s, m - 1) + (if m - 1 in s then m - 1 else 0)
  }

  lemma {:induction false} SumBelowAdd(s: set<int>, y: int, m: int)
    requires y !in s && 0 <= y
    ensures SumBelow(s + {y}, m) == SumBelow(s, m) + (if y < m then y else 0)
    decreases m
  {
    if m > 0 {
      SumBelowAdd(s, y, m - 1);
    }
  }

  /** No element occurs twice. */
  predicate Distinct<T(==)>(s: seq<T>)
  {
    forall i, j :: 0 <= i < j < |s| ==> s[i] != s[j]
  }

  /** A sequence of distinct naturals below `m` sums to the sum of its set of members. */
  lemma {:induction false} SeqSumDistinct(s: seq<int>, m: int)
    requires Distinct(s)
    requires forall k :: 0 <= k < |s| ==> 0 <= s[k] < m
    ensures SeqSum(s) == SumBelow((set x | x in s), m)
  {
    if s == [] {
      assert (set x | x in s) == {};
      SumBelowEmpty(m);
    } else {
      var p, y := s[..|s| - 1], s[|s| - 1];
      SeqSumDistinct(p, m);
      assert (set x | x in s) == (set x | x in p) + {y};
      assert y !in p;
      SumBelowAdd((set x | x in p), y, m);
    }
  }

  lemma {:induction false} SumBelowEmpty(m: int)
    ensures SumBelow({}, m) == 0
    decreases m
  {
    if m > 0 {
      SumBelowEmpty(m - 1);
    }
  }

  lemma SubsetSize<X>(A: set<X>, B: set<X>)
    requires A <= B
    ensures |A| <= |B|
  {
    assert B == A + (B - A);
  }

  // ---------------------------------------------------------------------
  // `sum(answer(line) for line in lines)`, where a line may have no answer

  /** The sum of the lines' answers; None as soon as one line has none. */
  ghost function Total(answer: string -> Option<int>, lines: seq<string>): Option<int>
  {
    if lines == [] then Some(0)
    else
      var sum := Total(answer, lines[..|lines| - 1]);
      var last := answer(lines[|lines| - 1]);
      if sum.Some? && last.Some? then Some(sum.value + last.value) else None
  }

  /** A line without an answer makes the whole answer fail. */
  lemma {:induction false} TotalFails(answer: string -> Option<int>, lines: seq<string>, j: int)
    requires 0 <= j < |lines| && answer(lines[j]).None?
    ensures Total(answer, lines) == None
  {
    if j < |lines| - 1 {
      TotalFails(answer, lines[..|lines| - 1], j);
    }
  }

  /** The first n lines have the answers `values`. */
  ghost predicate Answered(answer: string -> Option<int>, lines: seq<string>, values: seq<int>, n: nat)
  {
    |values| == n <= |lines| && forall i :: 0 <= i < n ==> answer(lines[i]) == Some(values[i])
  }

  lemma AnsweredNext(answer: string -> Option<int>, lines: seq<string>, values: seq<int>, n: nat, v: int)
    requires Answered(answer, lines, values, n) && n < |lines| && answer(lines[n]) == Some(v)
    ensures Answered(answer, lines, values + [v], n + 1)
    ensures SeqSum(values + [v]) == SeqSum(values) + v
  {
    assert (values + [v])[..n] == values;
  }

  /** When every line has an answer, the total is the sum of the answers. */
  lemma {:induction false} TotalAll(answer: string -> Option<int>, lines: seq<string>, values: seq<int>)
    requires Answered(answer, lines, values, |lines|)
    ensures Total(answer, lines) == Some(SeqSum(values))
  {
    if lines != [] {
      var n := |lines| - 1;
      TotalAll(answer, lines[..n], values[..n]);
    }
  }
}
