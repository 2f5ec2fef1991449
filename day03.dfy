/**
 * Day 3: each line is a bank of batteries, one digit each. Part 1 switches on
 * two batteries (in order) for the largest two-digit number; part 2 switches
 * on twelve for the largest twelve-digit number. The answer sums the lines.
 */
module Day03 {
  import opened Parsing
  import opened Sums

  const Keep: int := 12

  predicate IsDigits(ds: seq<int>)
  {
    forall k :: 0 <= k < |ds| ==> 0 <= ds[k] <= 9
  }

  /** `int(c)` for every character of the stripped line; a non-digit raises ValueError. */
  function LineDigits(line: string): (r: Option<seq<int>>)
    ensures r.Some? ==> IsDigits(r.value) && |r.value| == |Strip(line)|
  {
    var t := Strip(line);
    if AllDigits(t) then Some(DigitsOf(t)) else None
  }

  /** The digit values of a string of digits, in order. */
  function DigitsOf(t: string): (ds: seq<int>)
    requires AllDigits(t)
    ensures |ds| == |t| && IsDigits(ds)
  {
    if t == [] then [] else DigitsOf(t[..|t| - 1]) + [DigitValue(t[|t| - 1])]
  }

  // ---------------------------------------------------------------------
  // Part 1: running maximum

  function Max(a: int, b: int): int
  {
    if a >= b then a else b
  }

  /** The largest digit of `ds`, or 0 for no digits. */
  function MaxOf(ds: seq<int>): (m: int)
    requires IsDigits(ds)
    ensures 0 <= m <= 9
    ensures forall k :: 0 <= k < |ds| ==> ds[k] <= m
    ensures |ds| > 0 ==> exists k :: 0 <= k < |ds| && ds[k] == m
  {
    if ds == [] then 0
    else
      var p := ds[..|ds| - 1];
      assert forall k :: 0 <= k < |p| ==> p[k] == ds[k];
      Max(MaxOf(p), ds[|ds| - 1])
  }

  /** What part 1's loop leaves in `best` after reading `ds`. */
  function BestPairOf(ds: seq<int>): int
    requires IsDigits(ds)
  {
    if ds == [] then 0
    else Max(BestPairOf(ds[..|ds| - 1]), MaxOf(ds[..|ds| - 1]) * 10 + ds[|ds| - 1])
  }

  lemma {:induction false} BestPairBounds(ds: seq<int>)
    requires IsDigits(ds)
    ensures 0 <= BestPairOf(ds) <= 99
    ensures forall i, j :: 0 <= i < j < |ds| ==> 10 * ds[i] + ds[j] <= BestPairOf(ds)
  {
    if ds != [] {
      var n := |ds|;
      var p := ds[..n - 1];
      assert forall k :: 0 <= k < |p| ==> p[k] == ds[k];
      BestPairBounds(p);
      forall i, j | 0 <= i < j < n ensures 10 * ds[i] + ds[j] <= BestPairOf(ds)
      {
        if j < n - 1 {
          assert 10 * p[i] + p[j] <= BestPairOf(p);
        } else {
          assert ds[i] == p[i] <= MaxOf(p);
        }
      }
    }
  }

  lemma {:induction false} BestPairAttained(ds: seq<int>)
    requires IsDigits(ds) && |ds| >= 2
    ensures exists i, j :: 0 <= i < j < |ds| && BestPairOf(ds) == 10 * ds[i] + ds[j]
  {
    var n := |ds|;
    var p := ds[..n - 1];
    assert forall k :: 0 <= k < |p| ==> p[k] == ds[k];
    var m := MaxOf(p);
    var i :| 0 <= i < |p| && p[i] == m;
    assert BestPairOf(ds) == Max(BestPairOf(p), m * 10 + ds[n - 1]);
    if BestPairOf(ds) == m * 10 + ds[n - 1] {
      assert BestPairOf(ds) == 10 * ds[i] + ds[n - 1];
    } else if n >= 3 {
      BestPairAttained(p);
      var i', j' :| 0 <= i' < j' < |p| && BestPairOf(p) == 10 * p[i'] + p[j'];
      assert BestPairOf(ds) == 10 * ds[i'] + ds[j'];
    } else {
      // with two digits the pair (0, 1) always wins
      assert false;
    }
  }

  /** `best` is the largest 10 * d_i + d_j over i < j (the lone digit of a one-digit line). */
  lemma BestPairIsLargestPair(ds: seq<int>)
    requires IsDigits(ds)
    ensures 0 <= BestPairOf(ds) <= 99
    ensures forall i, j :: 0 <= i < j < |ds| ==> 10 * ds[i] + ds[j] <= BestPairOf(ds)
    ensures |ds| >= 2 ==> exists i, j :: 0 <= i < j < |ds| && BestPairOf(ds) == 10 * ds[i] + ds[j]
    ensures |ds| == 1 ==> BestPairOf(ds) == ds[0]
  {
    BestPairBounds(ds);
    if |ds| >= 2 {
      BestPairAttained(ds);
    }
    if |ds| == 1 {
      assert ds[..0] == [];
    }
  }

  /** Part 1's loop over one line. */
  method BestPair(ds: seq<int>) returns (best: int)
    requires IsDigits(ds)
    ensures best == BestPairOf(ds)
  {
    best := 0;
    var past := 0;
    for k := 0 to |ds|
      invariant best == BestPairOf(ds[..k]) && past == MaxOf(ds[..k])
    {
      var x := ds[k];
      assert ds[..k + 1][..k] == ds[..k];
      best := Max(best, past * 10 + x);
      past := Max(past, x);
    }
    assert ds[..|ds|] == ds;
  }

  // ---------------------------------------------------------------------
  // Part 2: the greedy choice of twelve digits

  function Min(a: int, b: int): int
  {
    if a <= b then a else b
  }

  /** Every digit at a position in [lo, hi) is at most the one at `p`. */
  predicate NoneAbove(ds: seq<int>, p: int, lo: int, hi: int)
  {
    0 <= p < |ds| && forall q :: lo <= q < hi && 0 <= q < |ds| ==> ds[q] <= ds[p]
  }

  /** Every digit at a position in [lo, hi) is smaller than the one at `p`. */
  predicate AllBelow(ds: seq<int>, p: int, lo: int, hi: int)
  {
    0 <= p < |ds| && forall q :: lo <= q < hi && 0 <= q < |ds| ==> ds[q] < ds[p]
  }

  /** The leftmost position of a largest digit among positions [lo, w). */
  function LeftmostMax(ds: seq<int>, lo: int, w: int): (j: int)
    requires 0 <= lo < w <= |ds|
    ensures lo <= j < w
    decreases w
  {
    if w == lo + 1 then lo
    else
      var j := LeftmostMax(ds, lo, w - 1);
      if ds[w - 1] > ds[j] then w - 1 else j
  }

  /** The position found holds a largest digit of the window, and every digit before it in the window is smaller. */
  lemma {:induction false} LeftmostMaxIsMax(ds: seq<int>, lo: int, w: int)
    requires 0 <= lo < w <= |ds|
    ensures var j := LeftmostMax(ds, lo, w);
      NoneAbove(ds, j, lo, w) && AllBelow(ds, j, lo, j)
    decreases w
  {
    if w > lo + 1 {
      LeftmostMaxIsMax(ds, lo, w - 1);
    }
  }

  /**
   * The `L` digits the stack ends with, choosing from position `lo` on: the
   * leftmost largest digit that still leaves `L - 1` digits after it, then
   * the greedy choice of `L - 1` digits from the positions after that one.
   */
  function GreedyFrom(ds: seq<int>, lo: int, L: nat): (g: seq<int>)
    requires 0 <= lo && lo + L <= |ds|
    ensures |g| == L
    decreases L
  {
    if L == 0 then []
    else
      var j := LeftmostMax(ds, lo, |ds| - L + 1);
      [ds[j]] + GreedyFrom(ds, j + 1, L - 1)
  }

  function Greedy(ds: seq<int>, L: nat): (g: seq<int>)
    requires L <= |ds|
  {
    GreedyFrom(ds, 0, L)
  }

  predicate Increasing(pos: seq<int>)
  {
    forall s, t :: 0 <= s < t < |pos| ==> pos[s] < pos[t]
  }

  /** `a` is the subsequence of `b` at the increasing positions `pos`, all at or after `lo`. */
  predicate Embeds(a: seq<int>, b: seq<int>, pos: seq<int>, lo: int)
  {
    |pos| == |a| && Increasing(pos) &&
    forall t :: 0 <= t < |pos| ==> 0 <= lo <= pos[t] < |b| && a[t] == b[pos[t]]
  }

  lemma {:induction false} Spread(pos: seq<int>, s: int, t: int)
    requires Increasing(pos) && 0 <= s <= t < |pos|
    ensures pos[s] + (t - s) <= pos[t]
    decreases t
  {
    if s < t {
      Spread(pos, s, t - 1);
    }
  }

  lemma EmbedCons(a: seq<int>, b: seq<int>, pos: seq<int>, j: int, lo: int)
    requires 0 <= lo <= j < |b| && Embeds(a, b, pos, j + 1)
    ensures Embeds([b[j]] + a, b, [j] + pos, lo)
  {
    var pos' := [j] + pos;
    assert forall t :: 0 < t < |pos'| ==> pos'[t] == pos[t - 1];
  }

  lemma EmbedDrop(a: seq<int>, b: seq<int>, pos: seq<int>, lo: int)
    requires Embeds(a, b, pos, lo) && |a| > 0
    ensures Embeds(a[1..], b, pos[1..], pos[0] + 1)
  {
    assert forall t :: 0 <= t < |pos| - 1 ==> pos[1..][t] == pos[t + 1] && pos[0] < pos[t + 1];
  }

  /** The greedy digits are a subsequence of the line. */
  lemma {:induction false} GreedyEmbeds(ds: seq<int>, lo: int, L: nat) returns (pos: seq<int>)
    requires 0 <= lo && lo + L <= |ds|
    ensures Embeds(GreedyFrom(ds, lo, L), ds, pos, lo)
    decreases L
  {
    if L == 0 {
      pos := [];
    } else {
      var j := LeftmostMax(ds, lo, |ds| - L + 1);
      var tail := GreedyFrom(ds, j + 1, L - 1);
      assert GreedyFrom(ds, lo, L) == [ds[j]] + tail;
      var rest := GreedyEmbeds(ds, j + 1, L - 1);
      EmbedCons(tail, ds, rest, j, lo);
      pos := [j] + rest;
    }
  }

  /** Lexicographic order on digit strings of the same length. */
  predicate LexLe(a: seq<int>, b: seq<int>)
    requires |a| == |b|
    decreases |a|
  {
    a == [] || a[0] < b[0] || (a[0] == b[0] && LexLe(a[1..], b[1..]))
  }

  /** No subsequence of length `L` from position `lo` on comes lexicographically after the greedy one. */
  lemma {:induction false} GreedyIsLargest(ds: seq<int>, lo: int, L: nat, a: seq<int>, pos: seq<int>)
    requires 0 <= lo && lo + L <= |ds| && |a| == L && Embeds(a, ds, pos, lo)
    ensures LexLe(a, GreedyFrom(ds, lo, L))
    decreases L
  {
    if L > 0 {
      var j := LeftmostMax(ds, lo, |ds| - L + 1);
      LeftmostMaxIsMax(ds, lo, |ds| - L + 1);
      Spread(pos, 0, L - 1);
      assert a[0] == ds[pos[0]] <= ds[j];
      var g' := GreedyFrom(ds, j + 1, L - 1);
      assert GreedyFrom(ds, lo, L) == [ds[j]] + g';
      if a[0] == ds[j] {
        assert j <= pos[0];
        EmbedDrop(a, ds, pos, lo);
        GreedyIsLargest(ds, j + 1, L - 1, a[1..], pos[1..]);
        assert ([ds[j]] + g')[1..] == g';
      }
    }
  }

  /** The position just before the kept one at `pos[t]` where the search for it began. */
  function Before(pos: seq<int>, lo: int, t: int): int
    requires 0 <= t <= |pos|
  {
    if t == 0 then lo - 1 else pos[t - 1]
  }

  /** No digit between the kept one at `pos[t]` and the one kept before it is as large. */
  predicate Gap(ds: seq<int>, pos: seq<int>, lo: int, t: int)
    requires 0 <= t < |pos|
  {
    AllBelow(ds, pos[t], Before(pos, lo, t) + 1, pos[t])
  }

  /** No digit between two kept ones (or between `lo` and the first) is as large as the later one. */
  predicate LeftGaps(ds: seq<int>, pos: seq<int>, lo: int)
  {
    forall t :: 0 <= t < |pos| ==> Gap(ds, pos, lo, t)
  }

  /** No digit after a kept one, up to the last one that still leaves room for the rest, is larger. */
  predicate RightWindows(ds: seq<int>, pos: seq<int>)
  {
    forall t :: 0 <= t < |pos| ==> NoneAbove(ds, pos[t], pos[t] + 1, |ds| - |pos| + t + 1)
  }

  /** The first kept position is the leftmost maximum of its window. */
  lemma FirstIsLeftmostMax(ds: seq<int>, lo: int, s: seq<int>, pos: seq<int>)
    requires 0 <= lo && 0 < |s| && lo + |s| <= |ds|
    requires Embeds(s, ds, pos, lo) && LeftGaps(ds, pos, lo) && RightWindows(ds, pos)
    ensures pos[0] == LeftmostMax(ds, lo, |ds| - |s| + 1)
  {
    LeftmostMaxIsMax(ds, lo, |ds| - |s| + 1);
    Spread(pos, 0, |s| - 1);
    assert Gap(ds, pos, lo, 0);
    assert NoneAbove(ds, pos[0], pos[0] + 1, |ds| - |s| + 1);
  }

  /** Both conditions survive dropping the first kept digit. */
  lemma ConditionsDrop(ds: seq<int>, lo: int, pos: seq<int>)
    requires |pos| > 0 && LeftGaps(ds, pos, lo) && RightWindows(ds, pos)
    ensures LeftGaps(ds, pos[1..], pos[0] + 1) && RightWindows(ds, pos[1..])
  {
    var rest, lo' := pos[1..], pos[0] + 1;
    forall t | 0 <= t < |rest| ensures Gap(ds, rest, lo', t)
    {
      assert Gap(ds, pos, lo, t + 1);
    }
    forall t | 0 <= t < |pos| - 1 ensures NoneAbove(ds, pos[1..][t], pos[1..][t] + 1, |ds| - (|pos| - 1) + t + 1)
    {
      assert NoneAbove(ds, pos[t + 1], pos[t + 1] + 1, |ds| - |pos| + (t + 1) + 1);
    }
  }

  /** A subsequence meeting both conditions is the greedy choice. */
  lemma {:induction false} CharacterizeGreedy(ds: seq<int>, lo: int, s: seq<int>, pos: seq<int>)
    requires 0 <= lo && lo + |s| <= |ds|
    requires Embeds(s, ds, pos, lo) && LeftGaps(ds, pos, lo) && RightWindows(ds, pos)
    ensures s == GreedyFrom(ds, lo, |s|)
    decreases |s|
  {
    var L := |s|;
    if L > 0 {
      FirstIsLeftmostMax(ds, lo, s, pos);
      Spread(pos, 0, L - 1);
      var p0 := pos[0];
      EmbedDrop(s, ds, pos, lo);
      ConditionsDrop(ds, lo, pos);
      CharacterizeGreedy(ds, p0 + 1, s[1..], pos[1..]);
    }
  }

  /** The position of the top of the stack, or -1 for an empty stack. */
  function Top(pos: seq<int>): int
  {
    if |pos| == 0 then -1 else pos[|pos| - 1]
  }

  /** The facts the stack loop keeps after reading `ds[..i]`. */
  ghost predicate StackInv(ds: seq<int>, stack: seq<int>, pos: seq<int>, i: int, k: nat)
  {
    var n := |ds|;
    0 <= i <= n && Embeds(stack, ds, pos, 0) && (forall t :: 0 <= t < |pos| ==> pos[t] < i) &&
    |stack| <= k && |stack| <= i && |stack| + n - i >= Min(n, k) &&
    LeftGaps(ds, pos, 0) &&
    forall t :: 0 <= t < |pos| ==> NoneAbove(ds, pos[t], pos[t] + 1, Min(i, n - k + t + 1))
  }

  /** Nothing read since the top of the stack is larger than it. */
  ghost predicate TailBelow(ds: seq<int>, pos: seq<int>, i: int)
  {
    |pos| > 0 ==> NoneAbove(ds, Top(pos), Top(pos) + 1, i)
  }

  /** While the stack is not full, the last digit read is on top of it. */
  ghost predicate Fresh(pos: seq<int>, i: int, k: nat)
  {
    |pos| < k ==> Top(pos) == i - 1
  }

  /** The facts the outer loop keeps after reading `ds[..i]`. */
  ghost predicate Scanned(ds: seq<int>, stack: seq<int>, pos: seq<int>, i: int, k: nat)
  {
    StackInv(ds, stack, pos, i, k) && TailBelow(ds, pos, i) && Fresh(pos, i, k)
  }

  lemma StackStart(ds: seq<int>, k: nat)
    ensures Scanned(ds, [], [], 0, k)
  {
  }

  lemma PopStart(ds: seq<int>, stack: seq<int>, pos: seq<int>, i: int, k: nat)
    requires Scanned(ds, stack, pos, i, k) == true && i < |ds|
    ensures PopInv(ds, stack, pos, i, false, k)
  {
  }

  /** The facts the pop loop keeps while `ds[i]` waits to be pushed. */
  ghost predicate PopInv(ds: seq<int>, stack: seq<int>, pos: seq<int>, i: int, popped: bool, k: nat)
  {
    StackInv(ds, stack, pos, i, k) && i < |ds| &&
    (popped ==> |stack| + |ds| - i >= k && AllBelow(ds, i, Top(pos) + 1, i)) &&
    (!popped ==> TailBelow(ds, pos, i) && Fresh(pos, i, k))
  }

  lemma PopStep(ds: seq<int>, stack: seq<int>, pos: seq<int>, i: int, popped: bool, k: nat)
    requires PopInv(ds, stack, pos, i, popped, k) == true
    requires |stack| > 0 && |stack| + |ds| - i > k && ds[i] > stack[|stack| - 1]
    ensures PopInv(ds, stack[..|stack| - 1], pos[..|pos| - 1], i, true, k)
  {
    PopKeeps(ds, stack, pos, i, k);
    PopBelow(ds, stack, pos, i, popped, k);
  }

  /** Dropping the top of the stack keeps the stack facts. */
  lemma PopKeeps(ds: seq<int>, stack: seq<int>, pos: seq<int>, i: int, k: nat)
    requires StackInv(ds, stack, pos, i, k) && |stack| > 0 && |stack| + |ds| - i > k
    ensures StackInv(ds, stack[..|stack| - 1], pos[..|pos| - 1], i, k)
  {
    var m := |pos| - 1;
    var stack', pos' := stack[..m], pos[..m];
    assert forall t :: 0 <= t < m ==> pos'[t] == pos[t] && stack'[t] == stack[t];
    forall t | 0 <= t < m ensures Gap(ds, pos', 0, t)
    {
      assert Gap(ds, pos, 0, t) && Before(pos', 0, t) == Before(pos, 0, t);
    }
  }

  /** Every digit between the new top and `ds[i]` is smaller than `ds[i]`. */
  lemma PopBelow(ds: seq<int>, stack: seq<int>, pos: seq<int>, i: int, popped: bool, k: nat)
    requires PopInv(ds, stack, pos, i, popped, k) == true
    requires |stack| > 0 && ds[i] > stack[|stack| - 1]
    ensures AllBelow(ds, i, Top(pos[..|pos| - 1]) + 1, i)
  {
    var m := |pos| - 1;
    var pos' := pos[..m];
    assert Top(pos') == Before(pos, 0, m);
    assert Gap(ds, pos, 0, m);
    forall q | Top(pos') + 1 <= q < i && 0 <= q < |ds| ensures ds[q] < ds[i]
    {
      if q < pos[m] {
        assert ds[q] < ds[pos[m]];
      } else if q > pos[m] && !popped {
        assert ds[q] <= ds[pos[m]];
      }
    }
  }

  /** The digit just read stays within the window of every entry left on the stack. */
  lemma WindowsStep(ds: seq<int>, stack: seq<int>, pos: seq<int>, i: int, popped: bool, k: nat)
    requires PopInv(ds, stack, pos, i, popped, k) == true
    requires !(|stack| > 0 && |stack| + |ds| - i > k && ds[i] > stack[|stack| - 1])
    ensures forall t :: 0 <= t < |pos| ==> NoneAbove(ds, pos[t], pos[t] + 1, Min(i + 1, |ds| - k + t + 1))
  {
    var n := |ds|;
    forall t | 0 <= t < |pos| ensures NoneAbove(ds, pos[t], pos[t] + 1, Min(i + 1, n - k + t + 1))
    {
      var m := |pos| - 1;
      assert NoneAbove(ds, pos[t], pos[t] + 1, Min(i, n - k + t + 1));
      if i <= n - k + t {
        if t < m {
          Spread(pos, t, m);
          assert ds[pos[m]] <= ds[pos[t]];
        }
        assert ds[i] <= ds[pos[t]];
      }
    }
  }

  lemma PushGaps(ds: seq<int>, pos: seq<int>, i: int)
    requires LeftGaps(ds, pos, 0) && AllBelow(ds, i, Top(pos) + 1, i)
    ensures LeftGaps(ds, pos + [i], 0)
  {
    var pos' := pos + [i];
    forall t | 0 <= t < |pos'| ensures Gap(ds, pos', 0, t)
    {
      if t < |pos| {
        assert Gap(ds, pos, 0, t);
        assert pos'[t] == pos[t] && Before(pos', 0, t) == Before(pos, 0, t);
      } else {
        assert Before(pos', 0, t) == Top(pos);
      }
    }
  }

  lemma EmbedPush(a: seq<int>, b: seq<int>, pos: seq<int>, i: int)
    requires Embeds(a, b, pos, 0) && 0 <= i < |b| && forall t :: 0 <= t < |pos| ==> pos[t] < i
    ensures Embeds(a + [b[i]], b, pos + [i], 0)
  {
    assert forall t :: 0 <= t < |pos| ==> (pos + [i])[t] == pos[t] && (a + [b[i]])[t] == a[t];
  }

  lemma AfterPops(ds: seq<int>, stack: seq<int>, pos: seq<int>, i: int, popped: bool, k: nat)
    requires PopInv(ds, stack, pos, i, popped, k) == true
    requires !(|stack| > 0 && |stack| + |ds| - i > k && ds[i] > stack[|stack| - 1])
    ensures |stack| < k ==> Scanned(ds, stack + [ds[i]], pos + [i], i + 1, k)
    ensures |stack| >= k ==> Scanned(ds, stack, pos, i + 1, k)
  {
    WindowsStep(ds, stack, pos, i, popped, k);
    if |stack| < k {
      AfterPush(ds, stack, pos, i, popped, k);
    } else {
      AfterFull(ds, stack, pos, i, popped, k);
    }
  }

  /** With room on the stack, pushing `ds[i]` restores the outer loop's facts. */
  lemma AfterPush(ds: seq<int>, stack: seq<int>, pos: seq<int>, i: int, popped: bool, k: nat)
    requires PopInv(ds, stack, pos, i, popped, k) == true && |stack| < k
    requires forall t :: 0 <= t < |pos| ==> NoneAbove(ds, pos[t], pos[t] + 1, Min(i + 1, |ds| - k + t + 1))
    ensures Scanned(ds, stack + [ds[i]], pos + [i], i + 1, k)
  {
    var stack', pos' := stack + [ds[i]], pos + [i];
    PushGaps(ds, pos, i);
    EmbedPush(stack, ds, pos, i);
    assert forall t :: 0 <= t < |pos| ==> pos'[t] == pos[t];
  }

  /** On a full stack that `ds[i]` does not beat, skipping `ds[i]` restores the outer loop's facts. */
  lemma AfterFull(ds: seq<int>, stack: seq<int>, pos: seq<int>, i: int, popped: bool, k: nat)
    requires PopInv(ds, stack, pos, i, popped, k) == true && |stack| >= k
    requires |stack| > 0 ==> ds[i] <= stack[|stack| - 1]
    requires forall t :: 0 <= t < |pos| ==> NoneAbove(ds, pos[t], pos[t] + 1, Min(i + 1, |ds| - k + t + 1))
    ensures Scanned(ds, stack, pos, i + 1, k)
  {
  }

  lemma StackDone(ds: seq<int>, stack: seq<int>, pos: seq<int>, k: nat)
    requires Scanned(ds, stack, pos, |ds|, k) == true
    ensures stack == Greedy(ds, Min(|ds|, k))
  {
    var n := |ds|;
    var L := |stack|;
    assert L == Min(n, k);
    forall t | 0 <= t < |pos| ensures NoneAbove(ds, pos[t], pos[t] + 1, n - L + t + 1)
    {
      Spread(pos, 0, t);
      assert NoneAbove(ds, pos[t], pos[t] + 1, Min(n, n - k + t + 1));
    }
    CharacterizeGreedy(ds, 0, stack, pos);
  }

  /** Part 2's stack loop over one line. */
  method KeepLargest(ds: seq<int>, k: nat) returns (stack: seq<int>)
    requires IsDigits(ds)
    ensures stack == Greedy(ds, Min(|ds|, k))
  {
    var n := |ds|;
    stack := [];
    ghost var pos: seq<int> := [];
    StackStart(ds, k);
    for i := 0 to n
      invariant Scanned(ds, stack, pos, i, k) == true
    {
      var x := ds[i];
      ghost var popped := false;
      PopStart(ds, stack, pos, i, k);
      while |stack| > 0 && |stack| + n - i > k && x > stack[|stack| - 1]
        invariant PopInv(ds, stack, pos, i, popped, k) == true
        decreases |stack|
      {
        PopStep(ds, stack, pos, i, popped, k);
        stack, pos, popped := stack[..|stack| - 1], pos[..|pos| - 1], true;
      }
      AfterPops(ds, stack, pos, i, popped, k);
      if |stack| < k {
        stack, pos := stack + [x], pos + [i];
      }
    }
    StackDone(ds, stack, pos, k);
  }

  // ---------------------------------------------------------------------
  // The joltage of the chosen digits

  /** The number the digits spell, read left to right. */
  function Value(s: seq<int>): int
  {
    if s == [] then 0 else Value(s[..|s| - 1]) * 10 + s[|s| - 1]
  }

  /** The loop that turns the stack into a number. */
  method Joltage(stack: seq<int>) returns (num: int)
    ensures num == Value(stack)
  {
    num := 0;
    for k := 0 to |stack|
      invariant num == Value(stack[..k])
    {
      assert stack[..k + 1][..k] == stack[..k];
      num := num * 10 + stack[k];
    }
    assert stack[..|stack|] == stack;
  }

  lemma {:induction false} ValueBounds(s: seq<int>)
    requires IsDigits(s)
    ensures 0 <= Value(s) < Pow10(|s|)
  {
    if s != [] {
      var p := s[..|s| - 1];
      assert IsDigits(p);
      ValueBounds(p);
    }
  }

  /** The leading digit weighs 10^(|s| - 1). */
  lemma {:induction false} ValueFront(s: seq<int>)
    requires |s| > 0
    ensures Value(s) == s[0] * Pow10(|s| - 1) + Value(s[1..])
  {
    var n := |s|;
    if n > 1 {
      var p := s[..n - 1];
      ValueFront(p);
      assert p[1..] == s[1..][..n - 2];
      calc {
        Value(s);
        Value(p) * 10 + s[n - 1];
        (s[0] * Pow10(n - 2) + Value(p[1..])) * 10 + s[n - 1];
        s[0] * (Pow10(n - 2) * 10) + (Value(s[1..][..n - 2]) * 10 + s[n - 1]);
        s[0] * Pow10(n - 1) + Value(s[1..]);
      }
    } else {
      assert s[..0] == [] && s[1..] == [];
    }
  }

  lemma LeadingDigitWins(x: int, y: int, u: int, v: int, p: int)
    requires x < y && 0 <= u < p && 0 <= v
    ensures x * p + u < y * p + v
  {
    assert x * p + p == (x + 1) * p;
    assert (x + 1) * p <= y * p;
  }

  /** Among digit strings of one length, the lexicographic order is the numeric order. */
  lemma {:induction false} LexLeValue(a: seq<int>, b: seq<int>)
    requires IsDigits(a) && IsDigits(b) && |a| == |b| && LexLe(a, b)
    ensures Value(a) <= Value(b)
  {
    if a != [] {
      var n := |a|;
      var p := Pow10(n - 1);
      ValueFront(a);
      ValueFront(b);
      assert IsDigits(a[1..]) && IsDigits(b[1..]);
      ValueBounds(a[1..]);
      ValueBounds(b[1..]);
      if a[0] < b[0] {
        LeadingDigitWins(a[0], b[0], Value(a[1..]), Value(b[1..]), p);
      } else {
        LexLeValue(a[1..], b[1..]);
      }
    }
  }

  /**
   * The greedy digits spell the largest number any `k` of the line's digits
   * (all of them when the line is shorter) can spell in order, and they are
   * themselves digits of the line in order.
   */
  lemma LargestJoltage(ds: seq<int>, k: nat, a: seq<int>, pos: seq<int>)
    requires IsDigits(ds) && |a| == Min(|ds|, k) && Embeds(a, ds, pos, 0)
    ensures Value(a) <= Value(Greedy(ds, Min(|ds|, k)))
    ensures exists gpos :: Embeds(Greedy(ds, Min(|ds|, k)), ds, gpos, 0)
  {
    var L := Min(|ds|, k);
    GreedyIsLargest(ds, 0, L, a, pos);
    var gpos := GreedyEmbeds(ds, 0, L);
    assert IsDigits(a);
    var g := Greedy(ds, L);
    assert IsDigits(g) by {
      forall t | 0 <= t < |g| ensures 0 <= g[t] <= 9
      {
        assert g[t] == ds[gpos[t]];
      }
    }
    LexLeValue(a, g);
  }

  lemma ValuePair(x: int, y: int)
    ensures Value([x, y]) == 10 * x + y
  {
    assert [x, y][..1] == [x];
    assert [x][..0] == [];
    assert Value([x]) == x;
    assert Value([x, y]) == Value([x]) * 10 + y;
  }

  lemma EmbedsPair(ds: seq<int>, i: int, j: int)
    requires 0 <= i < j < |ds|
    ensures Embeds([ds[i], ds[j]], ds, [i, j], 0)
  {
  }

  /** The greedy pair is one of the pairs part 1 compares, so it is no larger than `best`. */
  lemma GreedyPairAtMostBest(ds: seq<int>)
    requires IsDigits(ds) && |ds| >= 2
    ensures Value(Greedy(ds, 2)) <= BestPairOf(ds)
  {
    var g := Greedy(ds, 2);
    var gpos := GreedyEmbeds(ds, 0, 2);
    assert g == [ds[gpos[0]], ds[gpos[1]]];
    ValuePair(ds[gpos[0]], ds[gpos[1]]);
    BestPairBounds(ds);
  }

  /** `best` is spelled by some pair, so it is no larger than the greedy pair. */
  lemma BestAtMostGreedyPair(ds: seq<int>)
    requires IsDigits(ds) && |ds| >= 2
    ensures BestPairOf(ds) <= Value(Greedy(ds, 2))
  {
    BestPairAttained(ds);
    var i, j :| 0 <= i < j < |ds| && BestPairOf(ds) == 10 * ds[i] + ds[j];
    ValuePair(ds[i], ds[j]);
    EmbedsPair(ds, i, j);
    LargestJoltage(ds, 2, [ds[i], ds[j]], [i, j]);
  }

  /** Part 1's answer for a line is the same greedy choice with two digits. */
  lemma BestPairIsGreedy(ds: seq<int>)
    requires IsDigits(ds)
    ensures BestPairOf(ds) == Value(Greedy(ds, Min(|ds|, 2)))
  {
    if |ds| >= 2 {
      GreedyPairAtMostBest(ds);
      BestAtMostGreedyPair(ds);
    } else if |ds| == 1 {
      BestPairIsLargestPair(ds);
      assert Greedy(ds, 1) == [ds[0]];
      assert Value([ds[0]]) == Value([]) * 10 + ds[0];
    }
  }

  // ---------------------------------------------------------------------
  // Both parts over the lines of the input

  /** One line's largest `k`-digit joltage; None if the line holds a non-digit. */
  function LineJoltage(line: string, k: nat): Option<int>
  {
    var ds := LineDigits(line);
    if ds.Some? then Some(Value(Greedy(ds.value, Min(|ds.value|, k)))) else None
  }

  /** The per-line answer of a part that switches on `k` batteries. */
  function Joltages(k: nat): string -> Option<int>
  {
    line => LineJoltage(line, k)
  }

  /** Part 1 on one line: the best pair of its digits. */
  method LineBestPair(line: string) returns (r: Option<int>)
    ensures r == LineJoltage(line, 2)
  {
    var ds := LineDigits(line);
    if ds.None? {
      return None;
    }
    var best := BestPair(ds.value);
    BestPairIsGreedy(ds.value);
    return Some(best);
  }

  /** Part 2 on one line: the stack of `k` digits, read as a number. */
  method LineLargest(line: string, k: nat) returns (r: Option<int>)
    ensures r == LineJoltage(line, k)
  {
    var ds := LineDigits(line);
    if ds.None? {
      return None;
    }
    var stack := KeepLargest(ds.value, k);
    var num := Joltage(stack);
    return Some(num);
  }

  method Part1(lines: seq<string>) returns (result: Option<int>)
    ensures result == Total(Joltages(2), lines)
  {
    var sum := 0;
    ghost var values: seq<int> := [];
    for j := 0 to |lines|
      invariant Answered(Joltages(2), lines, values, j) && sum == SeqSum(values)
    {
      var v := LineBestPair(lines[j]);
      if v.None? {
        TotalFails(Joltages(2), lines, j);
        return None;
      }
      AnsweredNext(Joltages(2), lines, values, j, v.value);
      values := values + [v.value];
      sum := sum + v.value;
    }
    TotalAll(Joltages(2), lines, values);
    return Some(sum);
  }

  /** Part 2's loop over the lines, for stacks of `k` digits. */
  method LargestTotal(lines: seq<string>, k: nat) returns (result: Option<int>)
    ensures result == Total(Joltages(k), lines)
  {
    var sum := 0;
    ghost var values: seq<int> := [];
    for j := 0 to |lines|
      invariant Answered(Joltages(k), lines, values, j) && sum == SeqSum(values)
    {
      var v := LineLargest(lines[j], k);
      if v.None? {
        TotalFails(Joltages(k), lines, j);
        return None;
      }
      AnsweredNext(Joltages(k), lines, values, j, v.value);
      values := values + [v.value];
      sum := sum + v.value;
    }
    TotalAll(Joltages(k), lines, values);
    return Some(sum);
  }

  method Part2(lines: seq<string>) returns (result: Option<int>)
    ensures result == Total(Joltages(Keep), lines)
  {
    result := LargestTotal(lines, Keep);
  }

  // ---------------------------------------------------------------------
  // The puzzle's example

  /** The four banks of the puzzle's example. */
  function ExampleLines(): seq<string>
  {
    ["987654321111111", "811111111111119", "234234234234278", "818181911112111"]
  }

  /** The digits of a line made only of digits are read one per character. */
  lemma {:induction false} DigitsOfIs(t: string, ds: seq<int>)
    requires |t| == |ds| && AllDigits(t)
    requires forall k :: 0 <= k < |t| ==> DigitValue(t[k]) == ds[k]
    ensures DigitsOf(t) == ds
  {
    if t != [] {
      var n := |t| - 1;
      DigitsOfIs(t[..n], ds[..n]);
      assert ds == ds[..n] + [ds[n]];
    }
  }

  /** A bank of digits reads as its digits, and each part picks the greedy choice of them. */
  lemma BankJoltage(line: string, ds: seq<int>, k: nat)
    requires |line| == |ds| >= 1 && AllDigits(line)
    requires forall i :: 0 <= i < |line| ==> DigitValue(line[i]) == ds[i]
    ensures LineJoltage(line, k) == Some(Value(Greedy(ds, Min(|ds|, k))))
  {
    StripDigitEnds(line);
    DigitsOfIs(line, ds);
  }

  /** A position holding a largest digit of the window, with only smaller digits before it, is the leftmost maximum. */
  lemma LeftmostAt(ds: seq<int>, lo: int, w: int, j: int)
    requires 0 <= lo <= j < w <= |ds|
    requires NoneAbove(ds, j, lo, w) && AllBelow(ds, j, lo, j)
    ensures LeftmostMax(ds, lo, w) == j
  {
    LeftmostMaxIsMax(ds, lo, w);
  }

  /** Appending a digit shifts the number left by one place. */
  lemma ValueSnoc(e: seq<int>, d: int)
    ensures Value(e + [d]) == Value(e) * 10 + d
  {
    assert (e + [d])[..|e|] == e;
  }

  /** The greedy choice of 2 digits of bank 1 keeps the digits at [0, 1]. */
  lemma ExamplePair1(ds: seq<int>)
    requires ds == [9, 8, 7, 6, 5, 4, 3, 2, 1, 1, 1, 1, 1, 1, 1]
    ensures GreedyFrom(ds, 0, 2) == [9, 8]
  {
    LeftmostAt(ds, 0, 14, 0);
    LeftmostAt(ds, 1, 15, 1);
  }

  /** The greedy choice of 12 digits of bank 1 keeps the digits at [0, 1, 2, 3, 4, 5, 6, 7, 8, 9, 10, 11]. */
  lemma ExampleKeep1(ds: seq<int>)
    requires ds == [9, 8, 7, 6, 5, 4, 3, 2, 1, 1, 1, 1, 1, 1, 1]
    ensures GreedyFrom(ds, 0, 12) == [9, 8, 7, 6, 5, 4, 3, 2, 1, 1, 1, 1]
  {
    assert LeftmostMax(ds, 0, 4) == 0;
    assert LeftmostMax(ds, 1, 5) == 1;
    assert LeftmostMax(ds, 2, 6) == 2;
    assert LeftmostMax(ds, 3, 7) == 3;
    assert LeftmostMax(ds, 4, 8) == 4;
    assert LeftmostMax(ds, 5, 9) == 5;
    assert LeftmostMax(ds, 6, 10) == 6;
    assert LeftmostMax(ds, 7, 11) == 7;
    assert LeftmostMax(ds, 8, 12) == 8;
    assert LeftmostMax(ds, 9, 13) == 9;
    assert LeftmostMax(ds, 10, 14) == 10;
    assert LeftmostMax(ds, 11, 15) == 11;
  }

  lemma ExampleValue1(s: seq<int>)
    requires s == [9, 8, 7, 6, 5, 4, 3, 2, 1, 1, 1, 1]
    ensures Value(s) == 987654321111
  {
    var e: seq<int> := [];
    ValueSnoc(e, 9);
    e := e + [9];
    ValueSnoc(e, 8);
    e := e + [8];
    ValueSnoc(e, 7);
    e := e + [7];
    ValueSnoc(e, 6);
    e := e + [6];
    ValueSnoc(e, 5);
    e := e + [5];
    ValueSnoc(e, 4);
    e := e + [4];
    ValueSnoc(e, 3);
    e := e + [3];
    ValueSnoc(e, 2);
    e := e + [2];
    ValueSnoc(e, 1);
    e := e + [1];
    ValueSnoc(e, 1);
    e := e + [1];
    ValueSnoc(e, 1);
    e := e + [1];
    ValueSnoc(e, 1);
    e := e + [1];
    assert e == s;
  }

  /** Part 1's answer for bank 1. */
  lemma ExampleBankPair1()
    ensures LineJoltage(ExampleLines()[0], 2) == Some(98)
  {
    var ds := [9, 8, 7, 6, 5, 4, 3, 2, 1, 1, 1, 1, 1, 1, 1];
    BankJoltage(ExampleLines()[0], ds, 2);
    ExamplePair1(ds);
    ValuePair(9, 8);
  }

  /** Part 2's answer for bank 1. */
  lemma ExampleBankKeep1()
    ensures LineJoltage(ExampleLines()[0], Keep) == Some(987654321111)
  {
    var ds := [9, 8, 7, 6, 5, 4, 3, 2, 1, 1, 1, 1, 1, 1, 1];
    BankJoltage(ExampleLines()[0], ds, Keep);
    ExampleKeep1(ds);
    ExampleValue1([9, 8, 7, 6, 5, 4, 3, 2, 1, 1, 1, 1]);
  }

  /** The greedy choice of 2 digits of bank 2 keeps the digits at [0, 14]. */
  lemma ExamplePair2(ds: seq<int>)
    requires ds == [8, 1, 1, 1, 1, 1, 1, 1, 1, 1, 1, 1, 1, 1, 9]
    ensures GreedyFrom(ds, 0, 2) == [8, 9]
  {
    LeftmostAt(ds, 0, 14, 0);
    LeftmostAt(ds, 1, 15, 14);
  }

  /** The greedy choice of 12 digits of bank 2 keeps the digits at [0, 1, 2, 3, 4, 5, 6, 7, 8, 9, 10, 14]. */
  lemma ExampleKeep2(ds: seq<int>)
    requires ds == [8, 1, 1, 1, 1, 1, 1, 1, 1, 1, 1, 1, 1, 1, 9]
    ensures GreedyFrom(ds, 0, 12) == [8, 1, 1, 1, 1, 1, 1, 1, 1, 1, 1, 9]
  {
    assert LeftmostMax(ds, 0, 4) == 0;
    assert LeftmostMax(ds, 1, 5) == 1;
    assert LeftmostMax(ds, 2, 6) == 2;
    assert LeftmostMax(ds, 3, 7) == 3;
    assert LeftmostMax(ds, 4, 8) == 4;
    assert LeftmostMax(ds, 5, 9) == 5;
    assert LeftmostMax(ds, 6, 10) == 6;
    assert LeftmostMax(ds, 7, 11) == 7;
    assert LeftmostMax(ds, 8, 12) == 8;
    assert LeftmostMax(ds, 9, 13) == 9;
    assert LeftmostMax(ds, 10, 14) == 10;
    assert LeftmostMax(ds, 11, 15) == 14;
  }

  lemma ExampleValue2(s: seq<int>)
    requires s == [8, 1, 1, 1, 1, 1, 1, 1, 1, 1, 1, 9]
    ensures Value(s) == 811111111119
  {
    var e: seq<int> := [];
    ValueSnoc(e, 8);
    e := e + [8];
    ValueSnoc(e, 1);
    e := e + [1];
    ValueSnoc(e, 1);
    e := e + [1];
    ValueSnoc(e, 1);
    e := e + [1];
    ValueSnoc(e, 1);
    e := e + [1];
    ValueSnoc(e, 1);
    e := e + [1];
    ValueSnoc(e, 1);
    e := e + [1];
    ValueSnoc(e, 1);
    e := e + [1];
    ValueSnoc(e, 1);
    e := e + [1];
    ValueSnoc(e, 1);
    e := e + [1];
    ValueSnoc(e, 1);
    e := e + [1];
    ValueSnoc(e, 9);
    e := e + [9];
    assert e == s;
  }

  /** Part 1's answer for bank 2. */
  lemma ExampleBankPair2()
    ensures LineJoltage(ExampleLines()[1], 2) == Some(89)
  {
    var ds := [8, 1, 1, 1, 1, 1, 1, 1, 1, 1, 1, 1, 1, 1, 9];
    BankJoltage(ExampleLines()[1], ds, 2);
    ExamplePair2(ds);
    ValuePair(8, 9);
  }

  /** Part 2's answer for bank 2. */
  lemma ExampleBankKeep2()
    ensures LineJoltage(ExampleLines()[1], Keep) == Some(811111111119)
  {
    var ds := [8, 1, 1, 1, 1, 1, 1, 1, 1, 1, 1, 1, 1, 1, 9];
    BankJoltage(ExampleLines()[1], ds, Keep);
    ExampleKeep2(ds);
    ExampleValue2([8, 1, 1, 1, 1, 1, 1, 1, 1, 1, 1, 9]);
  }

  /** The greedy choice of 2 digits of bank 3 keeps the digits at [13, 14]. */
  lemma ExamplePair3(ds: seq<int>)
    requires ds == [2, 3, 4, 2, 3, 4, 2, 3, 4, 2, 3, 4, 2, 7, 8]
    ensures GreedyFrom(ds, 0, 2) == [7, 8]
  {
    LeftmostAt(ds, 0, 14, 13);
    LeftmostAt(ds, 14, 15, 14);
  }

  /** The greedy choice of 12 digits of bank 3 keeps the digits at [2, 4, 5, 6, 7, 8, 9, 10, 11, 12, 13, 14]. */
  lemma ExampleKeep3(ds: seq<int>)
    requires ds == [2, 3, 4, 2, 3, 4, 2, 3, 4, 2, 3, 4, 2, 7, 8]
    ensures GreedyFrom(ds, 0, 12) == [4, 3, 4, 2, 3, 4, 2, 3, 4, 2, 7, 8]
  {
    assert LeftmostMax(ds, 0, 4) == 2;
    assert LeftmostMax(ds, 3, 5) == 4;
    assert LeftmostMax(ds, 5, 6) == 5;
    assert LeftmostMax(ds, 6, 7) == 6;
    assert LeftmostMax(ds, 7, 8) == 7;
    assert LeftmostMax(ds, 8, 9) == 8;
    assert LeftmostMax(ds, 9, 10) == 9;
    assert LeftmostMax(ds, 10, 11) == 10;
    assert LeftmostMax(ds, 11, 12) == 11;
    assert LeftmostMax(ds, 12, 13) == 12;
    assert LeftmostMax(ds, 13, 14) == 13;
    assert LeftmostMax(ds, 14, 15) == 14;
  }

  lemma ExampleValue3(s: seq<int>)
    requires s == [4, 3, 4, 2, 3, 4, 2, 3, 4, 2, 7, 8]
    ensures Value(s) == 434234234278
  {
    var e: seq<int> := [];
    ValueSnoc(e, 4);
    e := e + [4];
    ValueSnoc(e, 3);
    e := e + [3];
    ValueSnoc(e, 4);
    e := e + [4];
    ValueSnoc(e, 2);
    e := e + [2];
    ValueSnoc(e, 3);
    e := e + [3];
    ValueSnoc(e, 4);
    e := e + [4];
    ValueSnoc(e, 2);
    e := e + [2];
    ValueSnoc(e, 3);
    e := e + [3];
    ValueSnoc(e, 4);
    e := e + [4];
    ValueSnoc(e, 2);
    e := e + [2];
    ValueSnoc(e, 7);
    e := e + [7];
    ValueSnoc(e, 8);
    e := e + [8];
    assert e == s;
  }

  /** Part 1's answer for bank 3. */
  lemma ExampleBankPair3()
    ensures LineJoltage(ExampleLines()[2], 2) == Some(78)
  {
    var ds := [2, 3, 4, 2, 3, 4, 2, 3, 4, 2, 3, 4, 2, 7, 8];
    BankJoltage(ExampleLines()[2], ds, 2);
    ExamplePair3(ds);
    ValuePair(7, 8);
  }

  /** Part 2's answer for bank 3. */
  lemma ExampleBankKeep3()
    ensures LineJoltage(ExampleLines()[2], Keep) == Some(434234234278)
  {
    var ds := [2, 3, 4, 2, 3, 4, 2, 3, 4, 2, 3, 4, 2, 7, 8];
    BankJoltage(ExampleLines()[2], ds, Keep);
    ExampleKeep3(ds);
    ExampleValue3([4, 3, 4, 2, 3, 4, 2, 3, 4, 2, 7, 8]);
  }

  /** The greedy choice of 2 digits of bank 4 keeps the digits at [6, 11]. */
  lemma ExamplePair4(ds: seq<int>)
    requires ds == [8, 1, 8, 1, 8, 1, 9, 1, 1, 1, 1, 2, 1, 1, 1]
    ensures GreedyFrom(ds, 0, 2) == [9, 2]
  {
    LeftmostAt(ds, 0, 14, 6);
    LeftmostAt(ds, 7, 15, 11);
  }

  /** The greedy choice of 12 digits of bank 4 keeps the digits at [0, 2, 4, 6, 7, 8, 9, 10, 11, 12, 13, 14]. */
  lemma ExampleKeep4(ds: seq<int>)
    requires ds == [8, 1, 8, 1, 8, 1, 9, 1, 1, 1, 1, 2, 1, 1, 1]
    ensures GreedyFrom(ds, 0, 12) == [8, 8, 8, 9, 1, 1, 1, 1, 2, 1, 1, 1]
  {
    assert LeftmostMax(ds, 0, 4) == 0;
    assert LeftmostMax(ds, 1, 5) == 2;
    assert LeftmostMax(ds, 3, 6) == 4;
    assert LeftmostMax(ds, 5, 7) == 6;
    assert LeftmostMax(ds, 7, 8) == 7;
    assert LeftmostMax(ds, 8, 9) == 8;
    assert LeftmostMax(ds, 9, 10) == 9;
    assert LeftmostMax(ds, 10, 11) == 10;
    assert LeftmostMax(ds, 11, 12) == 11;
    assert LeftmostMax(ds, 12, 13) == 12;
    assert LeftmostMax(ds, 13, 14) == 13;
    assert LeftmostMax(ds, 14, 15) == 14;
  }

  lemma ExampleValue4(s: seq<int>)
    requires s == [8, 8, 8, 9, 1, 1, 1, 1, 2, 1, 1, 1]
    ensures Value(s) == 888911112111
  {
    var e: seq<int> := [];
    ValueSnoc(e, 8);
    e := e + [8];
    ValueSnoc(e, 8);
    e := e + [8];
    ValueSnoc(e, 8);
    e := e + [8];
    ValueSnoc(e, 9);
    e := e + [9];
    ValueSnoc(e, 1);
    e := e + [1];
    ValueSnoc(e, 1);
    e := e + [1];
    ValueSnoc(e, 1);
    e := e + [1];
    ValueSnoc(e, 1);
    e := e + [1];
    ValueSnoc(e, 2);
    e := e + [2];
    ValueSnoc(e, 1);
    e := e + [1];
    ValueSnoc(e, 1);
    e := e + [1];
    ValueSnoc(e, 1);
    e := e + [1];
    assert e == s;
  }

  /** Part 1's answer for bank 4. */
  lemma ExampleBankPair4()
    ensures LineJoltage(ExampleLines()[3], 2) == Some(92)
  {
    var ds := [8, 1, 8, 1, 8, 1, 9, 1, 1, 1, 1, 2, 1, 1, 1];
    BankJoltage(ExampleLines()[3], ds, 2);
    ExamplePair4(ds);
    ValuePair(9, 2);
  }

  /** Part 2's answer for bank 4. */
  lemma ExampleBankKeep4()
    ensures LineJoltage(ExampleLines()[3], Keep) == Some(888911112111)
  {
    var ds := [8, 1, 8, 1, 8, 1, 9, 1, 1, 1, 1, 2, 1, 1, 1];
    BankJoltage(ExampleLines()[3], ds, Keep);
    ExampleKeep4(ds);
    ExampleValue4([8, 8, 8, 9, 1, 1, 1, 1, 2, 1, 1, 1]);
  }

  /** Four lines with answers a, b, c and d total a + b + c + d. */
  lemma FourLines(answer: string -> Option<int>, lines: seq<string>, a: int, b: int, c: int, d: int)
    requires |lines| == 4
    requires answer(lines[0]) == Some(a) && answer(lines[1]) == Some(b)
    requires answer(lines[2]) == Some(c) && answer(lines[3]) == Some(d)
    ensures Total(answer, lines) == Some(a + b + c + d)
  {
    var values: seq<int> := [];
    AnsweredNext(answer, lines, values, 0, a);
    values := values + [a];
    AnsweredNext(answer, lines, values, 1, b);
    values := values + [b];
    AnsweredNext(answer, lines, values, 2, c);
    values := values + [c];
    AnsweredNext(answer, lines, values, 3, d);
    values := values + [d];
    TotalAll(answer, lines, values);
  }

  /** The puzzle's example banks total 357 for part 1 and 3121910778619 for part 2. */
  lemma ExampleAnswers()
    ensures Total(Joltages(2), ExampleLines()) == Some(357)
    ensures Total(Joltages(Keep), ExampleLines()) == Some(3121910778619)
  {
    ExampleBankPair1();
    ExampleBankKeep1();
    ExampleBankPair2();
    ExampleBankKeep2();
    ExampleBankPair3();
    ExampleBankKeep3();
    ExampleBankPair4();
    ExampleBankKeep4();
    FourLines(Joltages(2), ExampleLines(), 98, 89, 78, 92);
    FourLines(Joltages(Keep), ExampleLines(), 987654321111, 811111111119, 434234234278, 888911112111);
  }
}
